/** Sorting namespaces by their depth annotation, which is text: "10" comes before "2". */
module TextOrder {
  import opened Hierarchy
  import opened Listings

  function Decimal(n: nat): (s: string)
    ensures |s| > 0
  {
    var digit := ['0' + (n % 10) as char];
    if n < 10 then digit else Decimal(n / 10) + digit
  }

  predicate TextLess(a: string, b: string) {
    if b == "" then false
    else if a == "" then true
    else a[0] < b[0] || (a[0] == b[0] && TextLess(a[1..], b[1..]))
  }

  lemma {:induction false} TextLessAsymmetric(a: string, b: string)
    requires TextLess(a, b)
    ensures !TextLess(b, a) && a != b
  {
    if a != "" && a[0] == b[0] {
      TextLessAsymmetric(a[1..], b[1..]);
    }
  }

  lemma {:induction false} TextLessTotal(a: string, b: string)
    ensures a == b || TextLess(a, b) || TextLess(b, a)
  {
    if a != "" && b != "" && a[0] == b[0] {
      TextLessTotal(a[1..], b[1..]);
      if a[1..] == b[1..] {
        assert a == [a[0]] + a[1..];
      }
    }
  }

  lemma {:induction false} TextLessTransitive(a: string, b: string, c: string)
    requires TextLess(a, b) && TextLess(b, c)
    ensures TextLess(a, c)
  {
    if a != "" && a[0] == b[0] == c[0] {
      TextLessTransitive(a[1..], b[1..], c[1..]);
    }
  }

  lemma {:induction false} DecimalInjective(m: nat, n: nat)
    requires Decimal(m) == Decimal(n)
    ensures m == n
  {
    var a, b := Decimal(m), Decimal(n);
    assert a[|a| - 1] == '0' + (m % 10) as char;
    assert b[|b| - 1] == '0' + (n % 10) as char;
    if m >= 10 && n >= 10 {
      assert Decimal(m / 10) == a[..|a| - 1] == Decimal(n / 10);
      DecimalInjective(m / 10, n / 10);
    }
  }

  // ---------- sorting ----------

  ghost predicate SortedByText(texts: map<Name, string>, s: seq<Name>)
    requires forall x :: x in s ==> x in texts
  {
    forall i, j :: 0 <= i < j < |s| ==> TextLess(texts[s[i]], texts[s[j]])
  }

  /** Puts `n` before the first name whose text is greater. */
  function Insert(texts: map<Name, string>, n: Name, s: seq<Name>): (r: seq<Name>)
    requires n in texts && forall x :: x in s ==> x in texts
    ensures forall x :: x in r <==> x == n || x in s
  {
    if s == [] then [n]
    else if TextLess(texts[n], texts[s[0]]) then [n] + s
    else [s[0]] + Insert(texts, n, s[1..])
  }

  function Sort(texts: map<Name, string>, s: seq<Name>): (r: seq<Name>)
    requires forall x :: x in s ==> x in texts
    ensures forall x :: x in r <==> x in s
  {
    if s == [] then [] else Insert(texts, s[0], Sort(texts, s[1..]))
  }

  lemma {:induction false} InsertSorted(texts: map<Name, string>, n: Name, s: seq<Name>)
    requires n in texts && (forall x :: x in s ==> x in texts) && SortedByText(texts, s)
    requires forall x :: x in s ==> texts[x] != texts[n]
    ensures SortedByText(texts, Insert(texts, n, s))
  {
    if s == [] {
    } else if TextLess(texts[n], texts[s[0]]) {
      forall j | 0 < j < |s| ensures TextLess(texts[n], texts[s[j]]) {
        TextLessTransitive(texts[n], texts[s[0]], texts[s[j]]);
      }
    } else {
      InsertSorted(texts, n, s[1..]);
      TextLessTotal(texts[n], texts[s[0]]);
      var r := Insert(texts, n, s[1..]);
      forall j | 0 <= j < |r| ensures TextLess(texts[s[0]], texts[r[j]]) {
        assert r[j] in r;
      }
    }
  }

  /** The sort is a rearrangement in strictly increasing text order, when the texts differ. */
  lemma {:induction false} SortSorts(texts: map<Name, string>, s: seq<Name>)
    requires forall x :: x in s ==> x in texts
    requires forall i, j :: 0 <= i < j < |s| ==> texts[s[i]] != texts[s[j]]
    ensures SortedByText(texts, Sort(texts, s))
    ensures Lists(Sort(texts, s), set x | x in s)
  {
    if s != [] {
      assert s == [s[0]] + s[1..];
      SortSorts(texts, s[1..]);
      InsertSorted(texts, s[0], Sort(texts, s[1..]));
    }
    SortedDistinct(texts, Sort(texts, s));
  }

  lemma SortedDistinct(texts: map<Name, string>, s: seq<Name>)
    requires (forall x :: x in s ==> x in texts) && SortedByText(texts, s)
    ensures forall i, j :: 0 <= i < j < |s| ==> s[i] != s[j]
  {
    forall i, j | 0 <= i < j < |s| ensures s[i] != s[j] {
      TextLessAsymmetric(texts[s[i]], texts[s[j]]);
    }
  }
}
