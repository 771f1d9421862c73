/** Properties of the cleaner's grouping: a group holds exactly the records with its key,
    the survivor of a group is the first one no other beats, after dropping the others no
    two records share a key, and `Object.values` lists every group once. */
module CleanGroupsProps {
  import opened Common
  import opened CleanGroups

  // ---------------------------------------------------------------------------
  // Filters
  // ---------------------------------------------------------------------------

  lemma {:induction false} RemainingDistinct(s: seq<Assessment>, td: set<string>)
    requires DistinctIds(s)
    ensures DistinctIds(Remaining(s, td))
  {
    if s != [] {
      var front := s[..|s| - 1];
      RemainingDistinct(front, td);
      forall y | y in Remaining(front, td)
        ensures y.id != s[|s| - 1].id
      {
        var m :| 0 <= m < |front| && front[m] == y;
        assert s[m] == y;
      }
    }
  }

  /** Filtering twice is filtering once by the union. */
  lemma {:induction false} RemainingTwice(s: seq<Assessment>, t: set<string>, u: set<string>)
    ensures Remaining(Remaining(s, t), u) == Remaining(s, t + u)
  {
    if s != [] {
      var front := s[..|s| - 1];
      var last := s[|s| - 1];
      RemainingTwice(front, t, u);
      var r := Remaining(front, t);
      if last.id !in t {
        assert Remaining(s, t) == r + [last];
        assert (r + [last])[..|r|] == r;
      } else {
        assert Remaining(s, t) == r;
      }
    }
  }

  lemma {:induction false} RemainingAll(s: seq<Assessment>, td: set<string>)
    requires forall a :: a in s ==> a.id !in td
    ensures Remaining(s, td) == s
  {
    if s != [] {
      var front, last := s[..|s| - 1], s[|s| - 1];
      assert s == front + [last];
      assert last in s;
      RemainingAll(front, td);
    }
  }

  lemma {:induction false} WithKeyMembers<K>(s: seq<Assessment>, key: Assessment -> Option<K>, k: K)
    ensures forall a :: a in WithKey(s, key, k) <==> a in s && key(a) == Some(k)
  {
    if s != [] {
      WithKeyMembers(s[..|s| - 1], key, k);
      assert s == s[..|s| - 1] + [s[|s| - 1]];
    }
  }

  lemma {:induction false} WithKeyDistinct<K>(s: seq<Assessment>, key: Assessment -> Option<K>, k: K)
    requires DistinctIds(s)
    ensures DistinctIds(WithKey(s, key, k))
  {
    if s != [] {
      var front := s[..|s| - 1];
      WithKeyDistinct(front, key, k);
      WithKeyMembers(front, key, k);
      forall y | y in WithKey(front, key, k)
        ensures y.id != s[|s| - 1].id
      {
        var m :| 0 <= m < |front| && front[m] == y;
        assert s[m] == y;
      }
    }
  }

  // ---------------------------------------------------------------------------
  // Collect
  // ---------------------------------------------------------------------------

  /** No two groups share a key.  */
  ghost predicate KeysDistinct<K>(b: seq<Bucket<K>>) {
    forall i, j :: 0 <= i < j < |b| ==> b[i].key != b[j].key
  }

  lemma {:induction false} WithKeyEmpty<K>(s: seq<Assessment>, key: Assessment -> Option<K>, k: K)
    requires forall a :: a in s ==> key(a) != Some(k)
    ensures WithKey(s, key, k) == []
  {
    if s != [] {
      assert s[|s| - 1] in s;
      assert forall a :: a in s[..|s| - 1] ==> a in s;
      WithKeyEmpty(s[..|s| - 1], key, k);
    }
  }

  /** Every record with a key has a group. */
  lemma {:induction false} CollectCovers<K>(s: seq<Assessment>, key: Assessment -> Option<K>)
    ensures forall a :: a in s && key(a).Some? ==> FindBucket(Collect(s, key), key(a).value).Some?
  {
    if s != [] {
      var front := s[..|s| - 1];
      var a := s[|s| - 1];
      CollectCovers(front, key);
      var b := Collect(front, key);
      var c := Collect(s, key);
      assert forall x :: x in s <==> x in front || x == a by {
        assert s == front + [a];
      }
      if key(a).Some? {
        var k := key(a).value;
        assert |c| >= |b| && forall m :: 0 <= m < |b| ==> c[m].key == b[m].key by {
          match FindBucket(b, k)
          case Some(i) =>
            assert c == b[i := Bucket(k, b[i].items + [a])];
          case None =>
            assert c == b + [Bucket(k, [a])];
        }
        forall x | x in s && key(x).Some?
          ensures FindBucket(c, key(x).value).Some?
        {
          if x != a {
            assert x in front;
            var m := FindBucket(b, key(x).value).value;
            assert c[m].key == key(x).value;
          } else if FindBucket(b, k).None? {
            assert c == b + [Bucket(k, [a])];
            assert c[|c| - 1].key == k;
          }
        }
      }
    }
  }

  /** No two groups share a key. */
  lemma {:induction false} CollectKeysDistinct<K>(s: seq<Assessment>, key: Assessment -> Option<K>)
    ensures KeysDistinct(Collect(s, key))
  {
    if s != [] {
      CollectKeysDistinct(s[..|s| - 1], key);
    }
  }

  /** Every group is non-empty and holds, in order, exactly the records with its key. */
  lemma {:induction false} CollectItems<K>(s: seq<Assessment>, key: Assessment -> Option<K>)
    ensures forall i :: 0 <= i < |Collect(s, key)| ==>
      Collect(s, key)[i].items == WithKey(s, key, Collect(s, key)[i].key) && Collect(s, key)[i].items != []
  {
    if s != [] {
      var front := s[..|s| - 1];
      var a := s[|s| - 1];
      CollectItems(front, key);
      var b := Collect(front, key);
      var c := Collect(s, key);
      if key(a).Some? {
        var k := key(a).value;
        match FindBucket(b, k)
        case Some(i) =>
          assert c == b[i := Bucket(k, b[i].items + [a])];
          CollectKeysDistinct(front, key);
          forall j | 0 <= j < |c|
            ensures c[j].items == WithKey(s, key, c[j].key)
          {
            if j != i {
              assert c[j] == b[j];
              assert b[j].key != b[i].key by {
                if j < i {
                  assert b[j].key != b[i].key;
                } else {
                  assert b[i].key != b[j].key;
                }
              }
            }
          }
        case None =>
          assert c == b + [Bucket(k, [a])];
          assert WithKey(front, key, k) == [] by {
            CollectCovers(front, key);
            WithKeyEmpty(front, key, k);
          }
      }
    }
  }

  lemma CollectSpec<K>(s: seq<Assessment>, key: Assessment -> Option<K>)
    ensures KeysDistinct(Collect(s, key))
    ensures forall i :: 0 <= i < |Collect(s, key)| ==>
      Collect(s, key)[i].items == WithKey(s, key, Collect(s, key)[i].key) && Collect(s, key)[i].items != []
    ensures forall a :: a in s && key(a).Some? ==> FindBucket(Collect(s, key), key(a).value).Some?
  {
    CollectCovers(s, key);
    CollectKeysDistinct(s, key);
    CollectItems(s, key);
  }

  // ---------------------------------------------------------------------------
  // The survivor
  // ---------------------------------------------------------------------------

  /** The record a stable sort by a strict weak order puts first: no member beats it, and it
      beats every member before it. */
  lemma {:induction false} BestIndexSpec(items: seq<Assessment>, better: (Assessment, Assessment) -> bool)
    requires items != [] && StrictWeakOrder(better)
    ensures forall j :: 0 <= j < |items| ==> !better(items[j], items[BestIndex(items, better)])
    ensures forall j :: 0 <= j < BestIndex(items, better) ==> better(items[BestIndex(items, better)], items[j])
  {
    if |items| > 1 {
      var n := |items|;
      var front := items[..n - 1];
      BestIndexSpec(front, better);
      var b := BestIndex(front, better);
      var x := items[n - 1];
      var xb := items[b];
      assert forall j :: 0 <= j < n - 1 ==> items[j] == front[j];
      if better(x, xb) {
        forall j | 0 <= j < n - 1
          ensures better(x, items[j])
        {
          var y := items[j];
          assert better(x, y) || better(y, xb);
        }
      }
    }
  }

  lemma {:induction false} LosersInclude<K>(b: seq<Bucket<K>>, better: (Assessment, Assessment) -> bool, i: nat)
    requires i < |b| && |b[i].items| > 1
    ensures AllBut(b[i].items, BestIndex(b[i].items, better)) <= Losers(b, better)
  {
    if i < |b| - 1 {
      LosersInclude(b[..|b| - 1], better, i);
    }
  }

  /** A loser comes from some group of two or more. */
  lemma {:induction false} LosersFrom<K>(b: seq<Bucket<K>>, better: (Assessment, Assessment) -> bool, x: string)
    ensures x in Losers(b, better) ==>
      exists i :: 0 <= i < |b| && |b[i].items| > 1 && x in AllBut(b[i].items, BestIndex(b[i].items, better))
  {
    if b != [] {
      var front := b[..|b| - 1];
      var g := b[|b| - 1].items;
      LosersFrom(front, better, x);
      if x in Losers(front, better) {
        var i :| 0 <= i < |front| && |front[i].items| > 1 && x in AllBut(front[i].items, BestIndex(front[i].items, better));
        assert b[i] == front[i];
      }
    }
  }

  /** With distinct ids, `slice(1)` of a group holds the ids of all members but the kept one. */
  lemma AllButSpec(items: seq<Assessment>, keep: nat)
    requires DistinctIds(items) && keep < |items|
    ensures forall x :: x in AllBut(items, keep) <==> x in Ids(items) && x != items[keep].id
  {
    forall m | 0 <= m < |items| && m != keep
      ensures items[m].id != items[keep].id
    {
      if m < keep {
        assert items[m].id != items[keep].id;
      } else {
        assert items[keep].id != items[m].id;
      }
    }
    forall x | x in Ids(items) && x != items[keep].id
      ensures x in AllBut(items, keep)
    {
      var y :| y in items && y.id == x;
      var m :| 0 <= m < |items| && items[m] == y;
    }
  }

  /** No two records left share a key. */
  ghost predicate KeyUnique<K>(s: seq<Assessment>, key: Assessment -> Option<K>) {
    forall i, j :: 0 <= i < j < |s| && key(s[i]).Some? ==> key(s[i]) != key(s[j])
  }

  /** The group of a key: its position and members. */
  lemma GroupOf<K>(s: seq<Assessment>, key: Assessment -> Option<K>, k: K) returns (i: nat)
    requires exists a :: a in s && key(a) == Some(k)
    ensures i < |Collect(s, key)| && Collect(s, key)[i].key == k
    ensures Collect(s, key)[i].items == WithKey(s, key, k)
    ensures forall a :: a in Collect(s, key)[i].items <==> a in s && key(a) == Some(k)
  {
    CollectSpec(s, key);
    var a :| a in s && key(a) == Some(k);
    i := FindBucket(Collect(s, key), k).value;
    WithKeyMembers(s, key, k);
  }

  /** With distinct ids, different records have different ids. */
  lemma DifferentIds(s: seq<Assessment>, x: Assessment, y: Assessment)
    requires DistinctIds(s) && x in s && y in s && x != y
    ensures x.id != y.id
  {
    var i :| 0 <= i < |s| && s[i] == x;
    var j :| 0 <= j < |s| && s[j] == y;
    if i < j {
      assert s[i].id != s[j].id;
    } else {
      assert s[j].id != s[i].id;
    }
  }

  /** Two records left with the same key are the same record. */
  lemma SurvivorsOfKey<K>(s: seq<Assessment>, key: Assessment -> Option<K>, better: (Assessment, Assessment) -> bool,
                          x: Assessment, y: Assessment)
    requires DistinctIds(s)
    ensures var r := Remaining(s, Losers(Collect(s, key), better));
      x in r && y in r && key(x).Some? && key(x) == key(y) ==> x == y
  {
    var c := Collect(s, key);
    var L := Losers(c, better);
    var r := Remaining(s, L);
    if x in r && y in r && key(x).Some? && key(x) == key(y) {
      var k := key(x).value;
      var g := GroupOf(s, key, k);
      var items := c[g].items;
      WithKeyDistinct(s, key, k);
      var p :| 0 <= p < |items| && items[p] == x;
      var q :| 0 <= q < |items| && items[q] == y;
      var keep := BestIndex(items, better);
      if |items| > 1 {
        LosersInclude(c, better, g);
        AllButSpec(items, keep);
        assert items[p].id in Ids(items) && items[q].id in Ids(items);
      }
    }
  }

  /** Deleting the losers leaves at most one record per key. */
  lemma OneSurvivorPerKey<K>(s: seq<Assessment>, key: Assessment -> Option<K>, better: (Assessment, Assessment) -> bool)
    requires DistinctIds(s)
    ensures KeyUnique(Remaining(s, Losers(Collect(s, key), better)), key)
  {
    var r := Remaining(s, Losers(Collect(s, key), better));
    RemainingDistinct(s, Losers(Collect(s, key), better));
    forall i, j | 0 <= i < j < |r| && key(r[i]).Some?
      ensures key(r[i]) != key(r[j])
    {
      assert r[i] in r && r[j] in r;
      SurvivorsOfKey(s, key, better, r[i], r[j]);
      assert r[i].id != r[j].id;
    }
  }

  /** The survivor of the group of any record with a key is left, and no member of the
      group beats it. */
  lemma SurvivorKept<K>(s: seq<Assessment>, key: Assessment -> Option<K>, better: (Assessment, Assessment) -> bool, a: Assessment)
    returns (w: Assessment)
    requires DistinctIds(s) && StrictWeakOrder(better)
    requires a in s && key(a).Some?
    ensures w in Remaining(s, Losers(Collect(s, key), better))
    ensures key(w) == key(a)
    ensures forall x :: x in s && key(x) == key(a) ==> !better(x, w)
  {
    var c := Collect(s, key);
    var k := key(a).value;
    var g := GroupOf(s, key, k);
    var items := c[g].items;
    CollectSpec(s, key);
    WithKeyDistinct(s, key, k);
    var keep := BestIndex(items, better);
    BestIndexSpec(items, better);
    w := items[keep];
    assert w in items;
    forall x | x in s && key(x) == key(a)
      ensures !better(x, w)
    {
      assert x in items;
      var m :| 0 <= m < |items| && items[m] == x;
    }
    forall h | 0 <= h < |c| && |c[h].items| > 1
      ensures w.id !in AllBut(c[h].items, BestIndex(c[h].items, better))
    {
      var other := c[h].items;
      WithKeyDistinct(s, key, c[h].key);
      AllButSpec(other, BestIndex(other, better));
      if h != g {
        WithKeyMembers(s, key, c[h].key);
        assert c[h].key != c[g].key by {
          if h < g {
            assert c[h].key != c[g].key;
          } else {
            assert c[g].key != c[h].key;
          }
        }
        forall y | y in other
          ensures y.id != w.id
        {
          DifferentIds(s, y, w);
        }
      }
    }
    LosersFrom(c, better, w.id);
  }

  // ---------------------------------------------------------------------------
  // Object key order
  // ---------------------------------------------------------------------------

  lemma {:induction false} NoIndexKeys<T>(s: seq<T>, key: T -> string)
    requires forall x :: x in s ==> !IsArrayIndex(key(x))
    ensures IndexKeyed(s, key) == [] && NameKeyed(s, key) == s
  {
    if s != [] {
      assert s == s[..|s| - 1] + [s[|s| - 1]];
      NoIndexKeys(s[..|s| - 1], key);
    }
  }

  /** With no key that reads as an array index, the order is insertion order. */
  lemma InsertionOrderWithoutIndexKeys<T>(s: seq<T>, key: T -> string)
    requires forall x :: x in s ==> !IsArrayIndex(key(x))
    ensures ObjectOrder(s, key) == s
  {
    NoIndexKeys(s, key);
  }

  /** Array-index keys in increasing value. */
  ghost predicate IndexSorted<T>(s: seq<T>, key: T -> string) {
    && (forall i :: 0 <= i < |s| ==> IsArrayIndex(key(s[i])))
    && (forall i, j :: 0 <= i < j < |s| ==> DigitsValue(key(s[i])) <= DigitsValue(key(s[j])))
  }

  lemma AppendSorted<T>(r: seq<T>, z: T, key: T -> string)
    requires IndexSorted(r, key) && IsArrayIndex(key(z))
    requires forall i :: 0 <= i < |r| ==> DigitsValue(key(r[i])) <= DigitsValue(key(z))
    ensures IndexSorted(r + [z], key)
  {
  }

  lemma BelowLast<T>(sorted: seq<T>, r: seq<T>, x: T, key: T -> string)
    requires IndexSorted(sorted, key) && sorted != [] && IsArrayIndex(key(x))
    requires DigitsValue(key(x)) < DigitsValue(key(sorted[|sorted| - 1]))
    requires forall y :: y in r ==> y in sorted[..|sorted| - 1] || y == x
    requires forall i :: 0 <= i < |r| ==> IsArrayIndex(key(r[i]))
    ensures forall i :: 0 <= i < |r| ==> IsArrayIndex(key(r[i])) && DigitsValue(key(r[i])) <= DigitsValue(key(sorted[|sorted| - 1]))
  {
    var n := |sorted|;
    forall i | 0 <= i < |r|
      ensures DigitsValue(key(r[i])) <= DigitsValue(key(sorted[n - 1]))
    {
      assert r[i] in r;
      if r[i] != x {
        var m :| 0 <= m < n - 1 && sorted[..n - 1][m] == r[i];
        assert sorted[m] == r[i];
      }
    }
  }

  lemma {:induction false} InsertByIndexSorted<T>(sorted: seq<T>, x: T, key: T -> string)
    requires IndexSorted(sorted, key) && IsArrayIndex(key(x))
    ensures forall y :: y in sorted ==> IsArrayIndex(key(y))
    ensures IndexSorted(InsertByIndex(sorted, x, key), key)
  {
    assert forall y :: y in sorted ==> IsArrayIndex(key(y));
    if sorted != [] {
      var n := |sorted|;
      var last := sorted[n - 1];
      var front := sorted[..n - 1];
      if DigitsValue(key(last)) > DigitsValue(key(x)) {
        InsertByIndexSorted(front, x, key);
        var r := InsertByIndex(front, x, key);
        BelowLast(sorted, r, x, key);
        AppendSorted(r, last, key);
      } else {
        AppendSorted(sorted, x, key);
      }
    }
  }

  /** Array-index keys come first, in increasing value. */
  lemma {:induction false} SortByIndexSorted<T>(s: seq<T>, key: T -> string)
    requires forall y :: y in s ==> IsArrayIndex(key(y))
    ensures IndexSorted(SortByIndex(s, key), key)
  {
    if s != [] {
      var front := s[..|s| - 1];
      assert forall y :: y in front ==> y in s;
      assert s[|s| - 1] in s;
      SortByIndexSorted(front, key);
      InsertByIndexSorted(SortByIndex(front, key), s[|s| - 1], key);
    }
  }
}
