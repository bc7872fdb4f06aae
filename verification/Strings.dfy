/** The order of Go strings, and sorting by it (sort.Strings). */
module Strings {

  predicate StringLess(a: string, b: string) {
    if b == "" then false
    else if a == "" then true
    else a[0] < b[0] || (a[0] == b[0] && StringLess(a[1..], b[1..]))
  }

  lemma {:induction false} StringTrichotomy(a: string, b: string)
    ensures a == b || StringLess(a, b) || StringLess(b, a)
    ensures !(StringLess(a, b) && StringLess(b, a)) && !(a == b && StringLess(a, b))
  {
    if a != "" && b != "" {
      StringTrichotomy(a[1..], b[1..]);
      if a[0] == b[0] && a[1..] == b[1..] {
        assert a == [a[0]] + a[1..] && b == [b[0]] + b[1..];
      }
    }
  }

  lemma {:induction false} StringTransitive(a: string, b: string, c: string)
    requires !StringLess(b, a) && !StringLess(c, b)
    ensures !StringLess(c, a)
  {
    if a != "" && b != "" && c != "" {
      if a[0] == b[0] == c[0] {
        StringTransitive(a[1..], b[1..], c[1..]);
      }
    }
  }

  ghost predicate SortedStrings(list: seq<string>) {
    forall i, j :: 0 <= i < j < |list| ==> !StringLess(list[j], list[i])
  }

  function Insert(sorted: seq<string>, s: string): seq<string> {
    if sorted == [] || !StringLess(s, sorted[|sorted| - 1]) then sorted + [s]
    else Insert(sorted[..|sorted| - 1], s) + [sorted[|sorted| - 1]]
  }

  lemma {:induction false} InsertKeeps(sorted: seq<string>, s: string)
    requires SortedStrings(sorted)
    ensures SortedStrings(Insert(sorted, s)) && multiset(Insert(sorted, s)) == multiset(sorted) + multiset{s}
  {
    if sorted != [] {
      var front, last := sorted[..|sorted| - 1], sorted[|sorted| - 1];
      assert sorted == front + [last];
      if StringLess(s, last) {
        InsertKeeps(front, s);
        StringTrichotomy(s, last);
        forall x | x in Insert(front, s)
          ensures !StringLess(last, x)
        {
          assert x in multiset(Insert(front, s));
          NotAfterLast(front, last, s, x);
        }
        SortedSnoc(Insert(front, s), last);
      } else {
        StringTrichotomy(last, last);
        forall x | x in sorted
          ensures !StringLess(s, x)
        {
          if x != last {
            NotAfterLast(front, last, last, x);
          }
          StringTransitive(x, last, s);
        }
        SortedSnoc(sorted, s);
      }
    }
  }

  lemma NotAfterLast(front: seq<string>, last: string, s: string, x: string)
    requires SortedStrings(front + [last]) && (x in front || x == s) && !StringLess(last, s)
    ensures !StringLess(last, x)
  {
    if x in front {
      var i :| 0 <= i < |front| && front[i] == x;
      assert (front + [last])[i] == x && (front + [last])[|front|] == last;
    }
  }

  lemma SortedSnoc(front: seq<string>, last: string)
    requires SortedStrings(front) && forall x :: x in front ==> !StringLess(last, x)
    ensures SortedStrings(front + [last])
  {
    assert forall i :: 0 <= i < |front| ==> front[i] in front;
  }

  /** sort.Strings */
  method SortStrings(list: seq<string>) returns (sorted: seq<string>)
    ensures SortedStrings(sorted) && multiset(sorted) == multiset(list)
  {
    hide SortedStrings;
    sorted := [];
    NothingSorted();
    var i := 0;
    while i < |list|
      invariant 0 <= i <= |list| && SortedStrings(sorted) && multiset(sorted) == multiset(list[..i])
    {
      InsertKeeps(sorted, list[i]);
      sorted := Insert(sorted, list[i]);
      assert list[..i + 1] == list[..i] + [list[i]];
      i := i + 1;
    }
    assert list[..i] == list;
  }

  lemma NothingSorted()
    ensures SortedStrings([])
  {
  }

  /** Sorting keeps what a list holds, and holds each string once when the list does. */
  lemma SortedIsSame(list: seq<string>, sorted: seq<string>)
    requires multiset(sorted) == multiset(list)
    ensures forall s :: s in sorted <==> s in list
    ensures (forall i, j :: 0 <= i < j < |list| ==> list[i] != list[j]) ==>
              forall i, j :: 0 <= i < j < |sorted| ==> sorted[i] != sorted[j]
  {
    assert forall s :: s in sorted <==> s in multiset(sorted);
    assert forall s :: s in list <==> s in multiset(list);
    if (forall i, j :: 0 <= i < j < |list| ==> list[i] != list[j]) {
      forall i, j | 0 <= i < j < |sorted|
        ensures sorted[i] != sorted[j]
      {
        if sorted[i] == sorted[j] {
          TwiceCounts(sorted, i, j);
          OnceCounts(list, sorted[i]);
        }
      }
    }
  }

  lemma TwiceCounts(s: seq<string>, i: nat, j: nat)
    requires i < j < |s| && s[i] == s[j]
    ensures multiset(s)[s[i]] >= 2
  {
    assert s == s[..j] + [s[j]] + s[j + 1..];
    assert s[..j][i] == s[i];
  }

  lemma {:induction false} OnceCounts(s: seq<string>, x: string)
    requires forall i, j :: 0 <= i < j < |s| ==> s[i] != s[j]
    ensures multiset(s)[x] <= 1
  {
    if s != [] {
      var front := s[..|s| - 1];
      OnceCounts(front, x);
      assert s == front + [s[|s| - 1]];
      if x == s[|s| - 1] && x in front {
        assert false;
      }
    }
  }
}
