/** Removing a name from a slice while ranging over the same backing array.

    The loop looks at every index of the original length and deletes by shifting the tail of the
    current slice left in place, so later iterations read shifted and, at the end, stale elements.
 */
module SliceRemoval {
  import opened Hierarchy

  ghost predicate NoDuplicates(s: seq<Name>) {
    forall i, j :: 0 <= i < j < |s| ==> s[i] != s[j]
  }

  /** What the loop leaves: a removal makes it skip the check of the element that follows. */
  function SkipRemove(s: seq<Name>, x: Name): seq<Name>
    decreases |s|
  {
    if s == [] then []
    else if s[0] != x then [s[0]] + SkipRemove(s[1..], x)
    else if |s| == 1 then []
    else [s[1]] + SkipRemove(s[2..], x)
  }

  function Without(s: seq<Name>, x: Name): (r: seq<Name>)
    ensures x !in r && forall y :: y != x ==> (y in r <==> y in s)
    ensures |r| <= |s|
  {
    if s == [] then [] else (if s[0] == x then [] else [s[0]]) + Without(s[1..], x)
  }

  /** The loop slices out of range exactly in this case. */
  predicate Overruns(s: seq<Name>, x: Name) {
    |s| > 0 && s[|s| - 1] == x && x in s[..|s| - 1]
  }

  /** Shifts `a[i + 1..len]` one to the left. */
  method ShiftLeft(a: array<Name>, i: nat, len: nat)
    requires i < len <= a.Length
    modifies a
    ensures a[..i] == old(a[..i]) && a[i..len - 1] == old(a[i + 1..len]) && a[len - 1..] == old(a[len - 1..])
  {
    for j := i to len - 1
      invariant forall k :: 0 <= k < a.Length ==> a[k] == if i <= k < j then old(a[k + 1]) else old(a[k])
    {
      a[j] := a[j + 1];
    }
  }

  /** The slice at index `i` after `d` removals from `s`: settled up to `i`, shifted behind it. */
  ghost predicate Shifted(a: seq<Name>, s: seq<Name>, x: Name, i: nat, d: nat)
    requires |a| == |s| && d <= i <= |s|
  {
    if i <= |s| - d
    then a[i..|s| - d] == s[i + d..] && a[..i] + SkipRemove(s[i + d..], x) == SkipRemove(s, x)
    else a[..|s| - d] == SkipRemove(s, x)
  }

  /** Behind the shortened slice the array still holds the old last element. */
  ghost predicate Stale(a: seq<Name>, s: seq<Name>, d: nat)
    requires |a| == |s| && d <= |s|
  {
    forall j :: |s| - d <= j < |s| ==> a[j] == s[|s| - 1]
  }

  ghost predicate Seen(s: seq<Name>, x: Name, i: nat, d: nat)
    requires d <= i <= |s|
  {
    (d == 0 <==> x !in s[..i]) && (i == |s| ==> !Overruns(s, x))
  }

  ghost predicate LoopState(a: seq<Name>, s: seq<Name>, x: Name, i: nat, d: nat)
    ensures LoopState(a, s, x, i, d) ==> |a| == |s| && d <= i <= |s|
  {
    |a| == |s| && d <= i <= |s| && Shifted(a, s, x, i, d) && Stale(a, s, d) && Seen(s, x, i, d)
  }

  lemma SeenStep(s: seq<Name>, x: Name, i: nat, d: nat, d': nat)
    requires d <= i < |s| && Seen(s, x, i, d)
    requires if d > 0 then d' >= d else d' == if s[i] == x then 1 else 0
    requires d' <= i + 1 && (d > 0 && i == |s| - 1 ==> s[|s| - 1] != x)
    ensures Seen(s, x, i + 1, d')
  {
    assert s[..i + 1] == s[..i] + [s[i]];
  }

  lemma KeepStep(a: seq<Name>, s: seq<Name>, x: Name, i: nat, d: nat)
    requires LoopState(a, s, x, i, d) && i < |s| && a[i] != x
    ensures LoopState(a, s, x, i + 1, d)
  {
    if i < |s| - d {
      assert a[i] == s[i + d] by {
        assert a[i..|s| - d][0] == s[i + d..][0];
      }
      assert s[i + d..][1..] == s[i + d + 1..];
      assert a[i + 1..|s| - d] == a[i..|s| - d][1..];
      assert a[..i + 1] == a[..i] + [a[i]];
      assert a[..i + 1] + SkipRemove(s[i + d + 1..], x) == a[..i] + SkipRemove(s[i + d..], x);
    } else if i == |s| - d {
      assert s[i + d..] == [];
      assert a[..i] == SkipRemove(s, x);
    }
    SeenStep(s, x, i, d, d);
  }

  lemma ShiftedStep(a: seq<Name>, b: seq<Name>, s: seq<Name>, x: Name, i: nat, d: nat)
    requires |a| == |b| == |s| && d <= i < |s| - d && Shifted(a, s, x, i, d) && s[i + d] == x
    requires b[..i] == a[..i] && b[i..|s| - d - 1] == a[i + 1..|s| - d]
    ensures Shifted(b, s, x, i + 1, d + 1)
  {
    var m := |s| - d - 1;
    var rest := s[i + d..];
    assert b[i..m] == rest[1..] by {
      assert a[i + 1..m + 1] == a[i..m + 1][1..];
    }
    if |rest| == 1 {
      assert b[..m] == a[..i] + [];
    } else {
      assert rest[1..][1..] == rest[2..] == s[i + d + 2..];
      assert b[i] == rest[1] by {
        assert b[i..m][0] == rest[1..][0];
      }
      assert b[..i + 1] == a[..i] + [rest[1]];
      assert b[i + 1..m] == b[i..m][1..];
      assert b[..i + 1] + SkipRemove(rest[2..], x) == a[..i] + SkipRemove(rest, x);
    }
  }

  lemma StaleStep(a: seq<Name>, b: seq<Name>, s: seq<Name>, i: nat, d: nat)
    requires |a| == |b| == |s| && d <= i < |s| - d && Stale(a, s, d) && a[i..|s| - d] == s[i + d..]
    requires b[|s| - d - 1..] == a[|s| - d - 1..]
    ensures Stale(b, s, d + 1)
  {
    var m := |s| - d - 1;
    assert a[m] == s[|s| - 1] by {
      assert a[i..m + 1][m - i] == s[i + d..][m - i];
    }
    forall j | m <= j < |s| ensures b[j] == s[|s| - 1] {
      assert b[j] == b[m..][j - m] == a[m..][j - m] == a[j];
    }
  }

  lemma RemoveStep(a: seq<Name>, b: seq<Name>, s: seq<Name>, x: Name, i: nat, d: nat)
    requires LoopState(a, s, x, i, d) && i < |s| - d && a[i] == x && |b| == |a|
    requires b[..i] == a[..i] && b[i..|s| - d - 1] == a[i + 1..|s| - d] && b[|s| - d - 1..] == a[|s| - d - 1..]
    ensures LoopState(b, s, x, i + 1, d + 1)
  {
    assert a[i] == s[i + d] by {
      assert a[i..|s| - d][0] == s[i + d..][0];
    }
    ShiftedStep(a, b, s, x, i, d);
    StaleStep(a, b, s, i, d);
    SeenStep(s, x, i, d, d + 1);
  }

  /** Reading the name behind the shortened slice means that it is last and was removed before. */
  lemma OverrunFound(a: seq<Name>, s: seq<Name>, x: Name, i: nat, d: nat)
    requires LoopState(a, s, x, i, d) && i < |s| && i + 1 > |s| - d && a[i] == x
    ensures Overruns(s, x) && a[..|s| - d] == SkipRemove(s, x)
  {
    assert x in s[..i];
    var k :| 0 <= k < i && s[k] == x;
    assert s[..|s| - 1][k] == x;
    if i == |s| - d {
      assert s[i + d..] == [];
    }
  }

  lemma LoopDone(a: seq<Name>, s: seq<Name>, x: Name, d: nat)
    requires LoopState(a, s, x, |s|, d)
    ensures a[..|s| - d] == SkipRemove(s, x) && !Overruns(s, x)
  {
    if d == 0 {
      assert s[|s|..] == [];
    }
  }

  lemma LoopStart(s: seq<Name>, x: Name)
    ensures LoopState(s, s, x, 0, 0)
  {
    assert s[0..|s|] == s[0..] == s;
    assert s[..0] + SkipRemove(s[0..], x) == SkipRemove(s, x);
  }

  /** Deletes index `i` of the slice `a[..len]`. */
  method DeleteAt(a: array<Name>, i: nat, len: nat, ghost s: seq<Name>, ghost x: Name)
    requires i < len <= |s| == a.Length && LoopState(a[..], s, x, i, |s| - len) && a[i] == x
    modifies a
    ensures LoopState(a[..], s, x, i + 1, |s| - len + 1)
  {
    hide LoopState;
    ghost var before := a[..];
    ShiftLeft(a, i, len);
    RemoveStep(before, a[..], s, x, i, |s| - len);
  }

  /** The removal loop over a slice; `ok` is false where slicing is out of range, which happens after the
      earlier removals have been stored. */
  method RemoveFromSlice(s: seq<Name>, x: Name) returns (ok: bool, out: seq<Name>)
    ensures ok <==> !Overruns(s, x)
    ensures out == SkipRemove(s, x)
  {
    hide LoopState, Overruns, SkipRemove;
    var n := |s|;
    var a := new Name[n](i requires 0 <= i < |s| => s[i]);
    var len := n;
    assert a[..] == s;
    LoopStart(s, x);
    for i := 0 to n
      invariant len <= n && LoopState(a[..], s, x, i, n - len)
    {
      if a[i] == x {
        if i + 1 > len {
          OverrunFound(a[..], s, x, i, n - len);
          return false, a[..len];
        }
        DeleteAt(a, i, len, s, x);
        len := len - 1;
      } else {
        KeepStep(a[..], s, x, i, n - len);
      }
    }
    LoopDone(a[..], s, x, n - len);
    return true, a[..len];
  }

  // ---------- when the loop does what it is for ----------

  ghost predicate AdjacentTwice(s: seq<Name>, x: Name) {
    exists i :: 0 <= i < |s| - 1 && s[i] == x && s[i + 1] == x
  }

  lemma {:induction false} SkipRemoveLeaves(s: seq<Name>, x: Name)
    ensures x in SkipRemove(s, x) <==> AdjacentTwice(s, x)
    ensures !AdjacentTwice(s, x) ==> SkipRemove(s, x) == Without(s, x)
    decreases |s|
  {
    if s == [] {
    } else if s[0] != x {
      SkipRemoveLeaves(s[1..], x);
      AdjacentInTail(s, x);
    } else if |s| == 1 {
    } else {
      SkipRemoveLeaves(s[2..], x);
      AdjacentInTail(s, x);
      AdjacentInTail(s[1..], x);
      assert s[1..][1..] == s[2..];
      if s[1] == x {
        assert s[0] == x && s[0 + 1] == x;
        assert AdjacentTwice(s, x);
      }
    }
  }

  lemma AdjacentInTail(s: seq<Name>, x: Name)
    requires |s| > 0
    ensures AdjacentTwice(s, x) <==> (|s| > 1 && s[0] == x && s[1] == x) || AdjacentTwice(s[1..], x)
  {
    if AdjacentTwice(s, x) {
      var i :| 0 <= i < |s| - 1 && s[i] == x && s[i + 1] == x;
      if i > 0 {
        assert s[1..][i - 1] == x && s[1..][i - 1 + 1] == x;
      }
    }
    if AdjacentTwice(s[1..], x) {
      var i :| 0 <= i < |s[1..]| - 1 && s[1..][i] == x && s[1..][i + 1] == x;
      assert s[i + 1] == x && s[i + 1 + 1] == x;
    }
    if |s| > 1 && s[0] == x && s[1] == x {
      assert s[0 + 1] == x;
    }
  }

  /** The loop stays in range and removes every occurrence, keeping the order of the rest, exactly when
      the name does not stand next to itself and is not both last and earlier. */
  lemma RemovalExactIff(s: seq<Name>, x: Name)
    ensures !Overruns(s, x) && SkipRemove(s, x) == Without(s, x) <==> !Overruns(s, x) && !AdjacentTwice(s, x)
  {
    SkipRemoveLeaves(s, x);
  }

  /** With duplicates both can happen: the loop runs out of range, and it leaves an occurrence behind. */
  lemma DuplicatesGoWrong()
    ensures Overruns(["x", "y", "x"], "x")
    ensures !Overruns(["x", "x", "y"], "x") && SkipRemove(["x", "x", "y"], "x") == ["x", "y"]
  {
    assert "x" in ["x", "y", "x"][..2] by {
      assert ["x", "y", "x"][..2][0] == "x";
    }
    assert ["x", "x", "y"][2..] == ["y"];
    assert SkipRemove(["y"], "x") == ["y"] by {
      assert ["y"][1..] == [];
    }
  }

  /** On a list without duplicates it always does, and takes out at most the one entry. */
  lemma RemovalOnDistinct(s: seq<Name>, x: Name)
    requires NoDuplicates(s)
    ensures !Overruns(s, x) && SkipRemove(s, x) == Without(s, x) && NoDuplicates(Without(s, x))
    ensures |Without(s, x)| == if x in s then |s| - 1 else |s|
  {
    SkipRemoveLeaves(s, x);
    WithoutDistinct(s, x);
  }

  lemma {:induction false} WithoutDistinct(s: seq<Name>, x: Name)
    requires NoDuplicates(s)
    ensures NoDuplicates(Without(s, x))
    ensures |Without(s, x)| == if x in s then |s| - 1 else |s|
  {
    if s != [] {
      WithoutDistinct(s[1..], x);
      var w := Without(s[1..], x);
      assert s == [s[0]] + s[1..];
      assert s[0] !in s[1..];
      if s[0] == x {
        assert Without(s, x) == w;
      } else {
        assert Without(s, x) == [s[0]] + w;
        assert s[0] !in w;
      }
    }
  }
}
