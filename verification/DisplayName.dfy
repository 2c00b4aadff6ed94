/** Display names: the root-to-node path of a namespace joined with slashes, and the path
    operations the controllers run on the pieces.
 */
module DisplayName {
  import opened Hierarchy

  // ---------- names ----------

  predicate Alphanumeric(c: char) {
    'a' <= c <= 'z' || '0' <= c <= '9'
  }

  /** The name check of a Subnamespace create: a label as section 2.1 of RFC 1123 has it. */
  predicate ValidName(s: string) {
    && 0 < |s| <= 63
    && Alphanumeric(s[0]) && Alphanumeric(s[|s| - 1])
    && forall c :: c in s ==> Alphanumeric(c) || c == '-'
  }

  /** The pattern ^[a-z0-9]([-a-z0-9]*[a-z0-9])?$: one alphanumeric character, or two with any number of
      alphanumeric characters and dashes between them. */
  ghost predicate MatchesLabel(s: string) {
    || (|s| == 1 && Alphanumeric(s[0]))
    || exists first: char, middle: string, last: char ::
         && s == [first] + middle + [last] && Alphanumeric(first) && Alphanumeric(last)
         && forall c :: c in middle ==> Alphanumeric(c) || c == '-'
  }

  lemma ValidNameIff(s: string)
    ensures ValidName(s) <==> |s| <= 63 && MatchesLabel(s)
  {
    if ValidName(s) && |s| > 1 {
      var middle := s[1..|s| - 1];
      assert s == [s[0]] + middle + [s[|s| - 1]];
    }
  }

  // ---------- joining and splitting ----------

  function Join(path: seq<Name>): string
    requires |path| > 0
  {
    if |path| == 1 then path[0] else Join(path[..|path| - 1]) + "/" + path[|path| - 1]
  }

  /** Everything up to the first slash. */
  function Head(s: string): (h: string)
    ensures |h| <= |s| && h == s[..|h|] && '/' !in h
    ensures |h| < |s| ==> s[|h|] == '/'
  {
    if s == "" || s[0] == '/' then "" else [s[0]] + Head(s[1..])
  }

  /** The pieces between slashes; always at least one. */
  function Split(s: string): (pieces: seq<string>)
    ensures |pieces| > 0
    decreases |s|
  {
    var h := Head(s);
    if |h| == |s| then [s] else [h] + Split(s[|h| + 1..])
  }

  /** The same pieces, cut off one after another as the library does. */
  method SplitPieces(s: string) returns (pieces: seq<string>)
    ensures pieces == Split(s)
  {
    pieces := [];
    var rest := s;
    while true
      invariant pieces + Split(rest) == Split(s)
      decreases |rest|
    {
      var h := Head(rest);
      if |h| == |rest| {
        pieces := pieces + [rest];
        return;
      }
      pieces := pieces + [h];
      rest := rest[|h| + 1..];
    }
  }

  lemma {:induction false} HeadOf(h: string, rest: string)
    requires '/' !in h
    ensures Head(h + "/" + rest) == h
    ensures Head(h) == h
  {
    var s := h + "/" + rest;
    if h != "" {
      HeadOf(h[1..], rest);
      assert s[1..] == h[1..] + "/" + rest;
    }
  }

  lemma {:induction false} SplitAppend(a: string, b: string)
    requires '/' !in b
    ensures Split(a + "/" + b) == Split(a) + [b]
    decreases |a|
  {
    hide Head;
    var h := Head(a);
    var s := a + "/" + b;
    HeadOf(b, "");
    if |h| == |a| {
      HeadOf(a, b);
      assert s[|h| + 1..] == b;
    } else {
      var a' := a[|h| + 1..];
      CutAppend(a, b, h);
      HeadOf(h, a' + "/" + b);
      SplitAppend(a', b);
      assert [h] + (Split(a') + [b]) == [h] + Split(a') + [b];
    }
  }

  lemma CutAppend(a: string, b: string, h: string)
    requires |h| < |a| && h == a[..|h|] && a[|h|] == '/'
    ensures a + "/" + b == h + "/" + (a[|h| + 1..] + "/" + b)
    ensures (a + "/" + b)[|h| + 1..] == a[|h| + 1..] + "/" + b
  {
    assert a == h + "/" + a[|h| + 1..];
  }

  /** A display name splits back into the path it was built from, when no name has a slash. */
  lemma {:induction false} SplitJoin(path: seq<Name>)
    requires |path| > 0 && forall n :: n in path ==> '/' !in n
    ensures Split(Join(path)) == path
  {
    if |path| == 1 {
      HeadOf(path[0], "");
    } else {
      var front, last := path[..|path| - 1], path[|path| - 1];
      SplitJoin(front);
      SplitAppend(Join(front), last);
    }
  }

  /** Every namespace carries its joined path as display name, and names have no slash. */
  ghost predicate DisplaysPaths(t: Tree, display: map<Name, string>)
    requires IsTree(t)
    ensures DisplaysPaths(t, display) ==> display.Keys == t.Nodes()
  {
    display.Keys == t.Nodes() && forall n :: n in display ==> '/' !in n && display[n] == Join(Path(t, n))
  }

  lemma SplitsToPath(t: Tree, display: map<Name, string>, n: Name)
    requires IsTree(t) && DisplaysPaths(t, display) && n in display
    ensures Split(display[n]) == Path(t, n)
  {
    hide IsTree;
    forall x | x in Path(t, n) ensures '/' !in x {
      var i :| 0 <= i < |Path(t, n)| && Path(t, n)[i] == x;
      PrefixIsPath(t, n, i);
    }
    SplitJoin(Path(t, n));
  }

  // ---------- paths from the bottom up ----------

  function Reversed(s: seq<Name>): (r: seq<Name>)
    ensures |r| == |s| && forall i :: 0 <= i < |s| ==> r[i] == s[|s| - 1 - i]
  {
    if s == [] then [] else Reversed(s[1..]) + [s[0]]
  }

  /** Everything after the first name, lowest first. */
  method LowestFirst(names: seq<Name>) returns (up: seq<Name>)
    requires |names| > 0
    ensures up == Reversed(names[1..])
  {
    up := [];
    var i := |names| - 1;
    while i >= 1
      invariant 0 <= i < |names| && up == Reversed(names[i + 1..])
    {
      assert names[i..][1..] == names[i + 1..];
      up := up + [names[i]];
      i := i - 1;
    }
  }

  // ---------- the nearest common ancestor ----------

  method IndexOf(element: Name, a: seq<Name>) returns (index: int)
    ensures index == -1 ==> element !in a
    ensures index != -1 ==> 0 <= index < |a| && a[index] == element && element !in a[..index]
  {
    for i := 0 to |a|
      invariant element !in a[..i]
    {
      if a[i] == element {
        return i;
      }
    }
    assert a[..|a|] == a;
    return -1;
  }

  /** No element of `a` from index `i` on is in `b`. */
  ghost predicate NoneFrom(a: seq<Name>, i: nat, b: seq<Name>) {
    forall k :: i <= k < |a| ==> a[k] !in b
  }

  lemma NoneFromStep(a: seq<Name>, i: nat, b: seq<Name>)
    requires i < |a| && NoneFrom(a, i + 1, b) && NoneFrom(b, 0, [a[i]])
    ensures NoneFrom(a, i, b)
  {
  }

  /** The last element of `source` that also occurs in `dest`, and whether both occurrences are first. */
  method GetAncestor(source: seq<Name>, dest: seq<Name>) returns (found: bool, name: Name, isRoot: bool)
    ensures !found ==> NoneFrom(source, 0, dest)
    ensures found ==> exists i, j :: LastMatch(source, dest, i, j) && name == source[i] && (isRoot <==> i == 0 && j == 0)
  {
    hide NoneFrom;
    EmptyTail(source, dest);
    var i := |source| - 1;
    while i >= 0
      invariant -1 <= i < |source| && NoneFrom(source, i + 1, dest)
    {
      EmptyTail(dest, [source[i]]);
      var j := |dest| - 1;
      while j >= 0
        invariant -1 <= j < |dest| && NoneFrom(dest, j + 1, [source[i]])
      {
        if source[i] == dest[j] {
          assert LastMatch(source, dest, i, j);
          return true, source[i], i == 0 && j == 0;
        }
        ExtendTail(dest, j, [source[i]]);
        j := j - 1;
      }
      NoneFromStep(source, i, dest);
      i := i - 1;
    }
    return false, "", false;
  }

  lemma EmptyTail(a: seq<Name>, b: seq<Name>)
    ensures NoneFrom(a, |a|, b)
  {
  }

  lemma ExtendTail(a: seq<Name>, j: nat, b: seq<Name>)
    requires j < |a| && NoneFrom(a, j + 1, b) && a[j] !in b
    ensures NoneFrom(a, j, b)
  {
  }

  ghost predicate LastMatch(source: seq<Name>, dest: seq<Name>, i: int, j: int) {
    && 0 <= i < |source| && 0 <= j < |dest| && source[i] == dest[j]
    && NoneFrom(source, i + 1, dest)
    && NoneFrom(dest, j + 1, [source[i]])
  }

  /** `l` is the lowest namespace above both `a` and `b`. */
  ghost predicate IsLowestCommon(t: Tree, a: Name, b: Name, l: Name)
    requires IsTree(t)
  {
    Under(t, l, a) && Under(t, l, b) && forall m :: Under(t, m, a) && Under(t, m, b) ==> Under(t, m, l)
  }

  /** On root-to-node paths the last match is the lowest common ancestor, at its depth in both. */
  lemma LastMatchIsLowest(t: Tree, a: Name, b: Name, i: nat, j: nat)
    requires IsTree(t) && a in t.Nodes() && b in t.Nodes()
    requires LastMatch(Path(t, a), Path(t, b), i, j)
    ensures IsLowestCommon(t, a, b, Path(t, a)[i])
    ensures i == j == Depth(t, Path(t, a)[i])
    ensures i == 0 && j == 0 <==> Path(t, a)[i] == t.root
  {
    var p, q := Path(t, a), Path(t, b);
    var l := p[i];
    PathShape(t, a);
    PathShape(t, b);
    UnderPrefix(t, l, a);
    UnderPrefix(t, l, b);
    forall m | Under(t, m, a) && Under(t, m, b) ensures Under(t, m, l) {
      UnderPrefix(t, m, a);
      var d := Depth(t, m);
      if d > i {
        assert false;
      }
      assert Path(t, l)[d] == m;
    }
  }

  lemma LowestCommonUnique(t: Tree, a: Name, b: Name, l: Name, m: Name)
    requires IsTree(t) && IsLowestCommon(t, a, b, l) && IsLowestCommon(t, a, b, m)
    ensures l == m
  {
    UnderPrefix(t, l, m);
    UnderPrefix(t, m, l);
  }
}
