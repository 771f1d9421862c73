/** Properties of the ordering of a group's children: the sort by first number is a
    permutation, it orders by number, it is stable, and it keeps the weight total. */
module GroupingSort {
  import opened Common
  import opened Grouping

  /** Children are in non-decreasing order of their first number. */
  predicate SortedByNumber(s: seq<Assessment>) {
    forall i, j :: 0 <= i < j < |s| ==> FirstNumber(s[i].name) <= FirstNumber(s[j].name)
  }

  /** The records of `s` whose first number is `n`, in the order of `s`. */
  function WithNumber(s: seq<Assessment>, n: nat): seq<Assessment> {
    if s == [] then []
    else WithNumber(s[..|s| - 1], n) + (if FirstNumber(s[|s| - 1].name) == n then [s[|s| - 1]] else [])
  }

  lemma WithNumberAppend(a: seq<Assessment>, b: seq<Assessment>, n: nat)
    ensures WithNumber(a + b, n) == WithNumber(a, n) + WithNumber(b, n)
    decreases |b|
  {
    if b == [] {
      assert a + b == a;
    } else {
      assert (a + b)[..|a + b| - 1] == a + b[..|b| - 1];
      WithNumberAppend(a, b[..|b| - 1], n);
    }
  }

  lemma {:induction false} InsertByNumberPerm(sorted: seq<Assessment>, a: Assessment)
    ensures multiset(InsertByNumber(sorted, a)) == multiset(sorted) + multiset{a}
    ensures SumWeights(InsertByNumber(sorted, a)) == SumWeights(sorted) + a.weight
    decreases |sorted|
  {
    if sorted != [] {
      var last := sorted[|sorted| - 1];
      var front := sorted[..|sorted| - 1];
      assert sorted == front + [last];
      if FirstNumber(a.name) < FirstNumber(last.name) {
        InsertByNumberPerm(front, a);
        var r := InsertByNumber(sorted, a);
        assert r[..|r| - 1] == InsertByNumber(front, a);
      } else {
        var r := InsertByNumber(sorted, a);
        assert r[..|r| - 1] == sorted;
      }
    }
  }

  /** Inserting adds `a` and keeps every other element. */
  lemma {:induction false} InsertByNumberMembers(sorted: seq<Assessment>, a: Assessment)
    ensures forall x :: x in InsertByNumber(sorted, a) <==> x == a || x in sorted
    decreases |sorted|
  {
    if sorted != [] {
      var last := sorted[|sorted| - 1];
      var front := sorted[..|sorted| - 1];
      assert sorted == front + [last];
      if FirstNumber(a.name) < FirstNumber(last.name) {
        InsertByNumberMembers(front, a);
      }
    }
  }

  lemma {:induction false} InsertByNumberSorted(sorted: seq<Assessment>, a: Assessment)
    requires SortedByNumber(sorted)
    ensures SortedByNumber(InsertByNumber(sorted, a))
    decreases |sorted|
  {
    var r := InsertByNumber(sorted, a);
    if sorted != [] {
      var last := sorted[|sorted| - 1];
      var front := sorted[..|sorted| - 1];
      if FirstNumber(a.name) < FirstNumber(last.name) {
        var r0 := InsertByNumber(front, a);
        InsertByNumberSorted(front, a);
        InsertByNumberMembers(front, a);
        assert r == r0 + [last];
        forall i, j | 0 <= i < j < |r|
          ensures FirstNumber(r[i].name) <= FirstNumber(r[j].name)
        {
          if j == |r| - 1 {
            assert r[i] == r0[i];
            assert r[i] in r0;
            if r[i] != a {
              assert r[i] in front;
              var p :| 0 <= p < |front| && front[p] == r[i];
              assert sorted[p] == r[i];
            }
          } else {
            assert r[i] == r0[i] && r[j] == r0[j];
          }
        }
      } else {
        assert r == sorted + [a];
        forall i, j | 0 <= i < j < |r|
          ensures FirstNumber(r[i].name) <= FirstNumber(r[j].name)
        {
          if j < |r| - 1 {
            assert r[i] == sorted[i] && r[j] == sorted[j];
          } else if i < |sorted| - 1 {
            assert sorted[i] == r[i];
          }
        }
      }
    }
  }

  lemma SortedFront(s: seq<Assessment>)
    requires SortedByNumber(s) && s != []
    ensures SortedByNumber(s[..|s| - 1])
  {
    var front := s[..|s| - 1];
    forall i, j | 0 <= i < j < |front|
      ensures FirstNumber(front[i].name) <= FirstNumber(front[j].name)
    {
      assert front[i] == s[i] && front[j] == s[j];
    }
  }

  lemma {:induction false} InsertByNumberStable(sorted: seq<Assessment>, a: Assessment, n: nat)
    requires SortedByNumber(sorted)
    ensures WithNumber(InsertByNumber(sorted, a), n)
         == WithNumber(sorted, n) + (if FirstNumber(a.name) == n then [a] else [])
    decreases |sorted|
  {
    var r := InsertByNumber(sorted, a);
    if sorted == [] {
      assert r == [a];
      assert r[..0] == [];
    } else {
      var last := sorted[|sorted| - 1];
      var front := sorted[..|sorted| - 1];
      if FirstNumber(a.name) < FirstNumber(last.name) {
        var r0 := InsertByNumber(front, a);
        SortedFront(sorted);
        InsertByNumberStable(front, a, n);
        assert r == r0 + [last];
        assert r[..|r| - 1] == r0;
        assert sorted[..|sorted| - 1] == front;
        var wa := if FirstNumber(a.name) == n then [a] else [];
        var wl := if FirstNumber(last.name) == n then [last] else [];
        assert WithNumber(r, n) == WithNumber(front, n) + wa + wl;
        assert WithNumber(sorted, n) == WithNumber(front, n) + wl;
        assert wa == [] || wl == [];
      } else {
        assert r == sorted + [a];
        assert r[..|r| - 1] == sorted;
      }
    }
  }

  /** page.tsx:102-106: sorting only reorders the children ... */
  lemma {:induction false} SortByNumberPerm(s: seq<Assessment>)
    ensures multiset(SortByNumber(s)) == multiset(s)
  {
    if s != [] {
      var front, last := s[..|s| - 1], s[|s| - 1];
      var sf := SortByNumber(front);
      assert SortByNumber(s) == InsertByNumber(sf, last);
      SortByNumberPerm(front);
      InsertByNumberPerm(sf, last);
      assert s == front + [last];
    }
  }

  /** ... so it keeps their weight total ... */
  lemma {:induction false} SortByNumberSum(s: seq<Assessment>)
    ensures SumWeights(SortByNumber(s)) == SumWeights(s)
  {
    if s != [] {
      SortByNumberSum(s[..|s| - 1]);
      InsertByNumberPerm(SortByNumber(s[..|s| - 1]), s[|s| - 1]);
    }
  }

  /** ... it orders them by their first number ... */
  lemma {:induction false} SortByNumberSorted(s: seq<Assessment>)
    ensures SortedByNumber(SortByNumber(s))
  {
    if s != [] {
      SortByNumberSorted(s[..|s| - 1]);
      InsertByNumberSorted(SortByNumber(s[..|s| - 1]), s[|s| - 1]);
    }
  }

  /** ... and records with the same number keep their input order (a stable sort). */
  lemma {:induction false} SortByNumberStable(s: seq<Assessment>, n: nat)
    ensures WithNumber(SortByNumber(s), n) == WithNumber(s, n)
  {
    if s != [] {
      SortByNumberStable(s[..|s| - 1], n);
      SortByNumberSorted(s[..|s| - 1]);
      InsertByNumberStable(SortByNumber(s[..|s| - 1]), s[|s| - 1], n);
    }
  }
}
