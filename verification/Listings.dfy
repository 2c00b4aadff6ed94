/** Listings of sets of namespaces, in the unspecified order in which the API server and map iteration
    give them.
 */
module Listings {
  import opened Hierarchy

  /** `kids` names every member of `s` once, in some order. */
  ghost predicate Lists(kids: seq<Name>, s: set<Name>) {
    && (forall x :: x in s <==> x in kids)
    && (forall i, j :: 0 <= i < j < |kids| ==> kids[i] != kids[j])
  }

  /** Lists a set in some order, as the API server does. */
  method ListNames(s: set<Name>) returns (names: seq<Name>)
    ensures Lists(names, s)
  {
    names := [];
    var todo := s;
    while todo != {}
      invariant todo <= s && Lists(names, s - todo)
      decreases todo
    {
      var x :| x in todo;
      names := names + [x];
      todo := todo - {x};
    }
    assert s - todo == s;
  }

  lemma ListingExists(s: set<Name>) returns (order: seq<Name>)
    ensures Lists(order, s)
  {
    if s == {} {
      order := [];
    } else {
      var x :| x in s;
      var rest := ListingExists(s - {x});
      order := [x] + rest;
    }
  }

  lemma ListingFrom(s: set<Name>, k: Name) returns (order: seq<Name>)
    requires k in s
    ensures Lists(order, s) && order[0] == k
  {
    var rest := ListingExists(s - {k});
    order := [k] + rest;
  }

  lemma JoinListings(a: seq<Name>, b: seq<Name>, s: set<Name>, r: set<Name>)
    requires Lists(a, s) && Lists(b, r) && s !! r
    ensures Lists(a + b, s + r)
  {
    forall i, j | 0 <= i < j < |a + b| ensures (a + b)[i] != (a + b)[j] {
      if i < |a| <= j {
        assert a[i] in s && b[j - |a|] in r;
      }
    }
  }

  /** A listing is as long as the set it lists. */
  lemma {:induction false} ListingSize(s: seq<Name>, a: set<Name>)
    requires Lists(s, a)
    ensures |s| == |a|
  {
    if s == [] {
      assert a == {};
    } else {
      assert s == [s[0]] + s[1..];
      ListingSize(s[1..], a - {s[0]});
    }
  }
}
