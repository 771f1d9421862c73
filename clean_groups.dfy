/** The records the duplicate cleaner works on (scripts/clean-assessments.ts:14-20) and the
    grouping it does again and again: `groups[key] ??= []; groups[key].push(a)` over a
    list, the survivor of a group after `group.sort(...)` and `group.slice(1)`, and the
    order in which `Object.values` / `Object.entries` list the groups. */
module CleanGroups {
  import opened Common

  /** The fields of an assessment row the cleaner reads. */
  datatype Assessment = Assessment(id: string, name: string, weight: real)

  /** `assessments.filter(a => !toDelete.includes(a.id))` */
  function Remaining(s: seq<Assessment>, toDelete: set<string>): (r: seq<Assessment>)
    ensures |r| <= |s|
    ensures forall a :: a in r <==> a in s && a.id !in toDelete
  {
    if s == [] then []
    else
      var last := s[|s| - 1];
      Remaining(s[..|s| - 1], toDelete) + (if last.id !in toDelete then [last] else [])
  }

  /** Row ids are primary keys. */
  predicate DistinctIds(s: seq<Assessment>) {
    forall i, j :: 0 <= i < j < |s| ==> s[i].id != s[j].id
  }

  function Ids(s: seq<Assessment>): set<string> {
    set a | a in s :: a.id
  }

  // ---------------------------------------------------------------------------
  // Grouping by a key
  // ---------------------------------------------------------------------------

  /** One property of a `{ [key]: Assessment[] }` record. */
  datatype Bucket<K> = Bucket(key: K, items: seq<Assessment>)

  function FindBucket<K(==)>(b: seq<Bucket<K>>, k: K): (r: Option<nat>)
    ensures r.Some? ==> r.value < |b| && b[r.value].key == k
    ensures r.None? ==> forall i :: 0 <= i < |b| ==> b[i].key != k
  {
    if b == [] then None
    else if b[|b| - 1].key == k then Some(|b| - 1)
    else FindBucket(b[..|b| - 1], k)
  }

  /** `if (!groups[k]) groups[k] = []; groups[k].push(a)`: a new key is appended. */
  function PushItem<K(==)>(b: seq<Bucket<K>>, k: K, a: Assessment): seq<Bucket<K>> {
    match FindBucket(b, k)
    case Some(i) => b[i := Bucket(k, b[i].items + [a])]
    case None => b + [Bucket(k, [a])]
  }

  /** The record built by a loop over `s` that files each record under its key, `None`
      standing for the `continue` of a record without one. */
  function Collect<K(==)>(s: seq<Assessment>, key: Assessment -> Option<K>): seq<Bucket<K>> {
    if s == [] then []
    else
      var b := Collect(s[..|s| - 1], key);
      var a := s[|s| - 1];
      if key(a).Some? then PushItem(b, key(a).value, a) else b
  }

  /** The records of `s` with key `k`, in order. */
  function WithKey<K(==)>(s: seq<Assessment>, key: Assessment -> Option<K>, k: K): seq<Assessment> {
    if s == [] then []
    else WithKey(s[..|s| - 1], key, k) + (if key(s[|s| - 1]) == Some(k) then [s[|s| - 1]] else [])
  }

  /** The grouping loops of lines 71-76, 121-125, 209-214 and 275-278. */
  method CollectGroups<K(==)>(s: seq<Assessment>, key: Assessment -> Option<K>) returns (groups: seq<Bucket<K>>)
    ensures groups == Collect(s, key)
  {
    groups := [];
    for i := 0 to |s|
      invariant groups == Collect(s[..i], key)
    {
      assert s[..i + 1][..i] == s[..i];
      var a := s[i];
      var k := key(a);
      if k.None? {
        continue;
      }
      var found := FindBucket(groups, k.value);
      ghost var before := groups;
      if found.None? {
        groups := groups + [Bucket(k.value, [])];
        found := Some(|groups| - 1);
      }
      var j := found.value;
      groups := groups[j := Bucket(k.value, groups[j].items + [a])];
      assert groups == PushItem(before, k.value, a) by {
        assert [] + [a] == [a];
      }
    }
    assert s[..|s|] == s;
  }

  // ---------------------------------------------------------------------------
  // The survivor of a group
  // ---------------------------------------------------------------------------

  /** `better` is a strict weak order, the kind of comparison `Array.prototype.sort` needs
      for a defined result. */
  ghost predicate StrictWeakOrder(better: (Assessment, Assessment) -> bool) {
    && (forall x :: !better(x, x))
    && (forall x, y, z :: better(x, y) && better(y, z) ==> better(x, z))
    && (forall x, y, z :: better(x, y) ==> better(x, z) || better(z, y))
  }

  /** The position of the element a stable sort by `better` puts first: the first element
      that no other beats. */
  function BestIndex(items: seq<Assessment>, better: (Assessment, Assessment) -> bool): (r: nat)
    requires items != []
    ensures r < |items|
  {
    if |items| == 1 then 0
    else
      var b := BestIndex(items[..|items| - 1], better);
      if better(items[|items| - 1], items[b]) then |items| - 1 else b
  }

  /** The ids `group.slice(1)` pushes: every element but the survivor. */
  function AllBut(items: seq<Assessment>, keep: nat): set<string> {
    set i | 0 <= i < |items| && i != keep :: items[i].id
  }

  /** The ids pushed by a `for (const group of Object.values(groups))` loop that keeps one
      element of each group of two or more. */
  function Losers<K>(groups: seq<Bucket<K>>, better: (Assessment, Assessment) -> bool): set<string> {
    if groups == [] then {}
    else
      var g := groups[|groups| - 1].items;
      Losers(groups[..|groups| - 1], better) + (if |g| > 1 then AllBut(g, BestIndex(g, better)) else {})
  }

  /** The survivor of one group (lines 79-86 and 128-136). */
  method DropAllButOne(items: seq<Assessment>, better: (Assessment, Assessment) -> bool, toDelete: set<string>)
    returns (td: set<string>)
    requires items != []
    ensures td == toDelete + AllBut(items, BestIndex(items, better))
  {
    var keep := BestIndex(items, better);
    td := toDelete;
    for i := 0 to |items|
      invariant td == toDelete + (set j | 0 <= j < i && j != keep :: items[j].id)
    {
      if i != keep {
        td := td + {items[i].id};
      }
    }
  }

  /** The loops of lines 78-87 and 127-137. */
  method DropAllButBest<K>(groups: seq<Bucket<K>>, better: (Assessment, Assessment) -> bool, toDelete: set<string>)
    returns (td: set<string>)
    ensures td == toDelete + Losers(groups, better)
  {
    td := toDelete;
    for i := 0 to |groups|
      invariant td == toDelete + Losers(groups[..i], better)
    {
      assert groups[..i + 1][..i] == groups[..i];
      var g := groups[i].items;
      if |g| > 1 {
        td := DropAllButOne(g, better, td);
      }
    }
    assert groups[..|groups|] == groups;
  }

  // ---------------------------------------------------------------------------
  // The order of an object's keys
  // ---------------------------------------------------------------------------

  /** A key that JavaScript treats as an array index: the canonical decimal spelling of a
      number below 2^32 - 1. */
  predicate IsArrayIndex(k: string) {
    |k| > 0 && AllDigits(k) && (k[0] != '0' || |k| == 1) && DigitsValue(k) < 4294967295
  }

  function IndexKeyed<T>(s: seq<T>, key: T -> string): (r: seq<T>)
    ensures multiset(r) <= multiset(s)
  {
    if s == [] then []
    else
      assert s == s[..|s| - 1] + [s[|s| - 1]];
      IndexKeyed(s[..|s| - 1], key) + (if IsArrayIndex(key(s[|s| - 1])) then [s[|s| - 1]] else [])
  }

  function NameKeyed<T>(s: seq<T>, key: T -> string): (r: seq<T>) {
    if s == [] then []
    else NameKeyed(s[..|s| - 1], key) + (if IsArrayIndex(key(s[|s| - 1])) then [] else [s[|s| - 1]])
  }

  function InsertByIndex<T>(sorted: seq<T>, x: T, key: T -> string): (r: seq<T>)
    requires forall y :: y in sorted ==> IsArrayIndex(key(y))
    requires IsArrayIndex(key(x))
    ensures multiset(r) == multiset(sorted) + multiset{x}
    ensures forall y :: y in r ==> y in sorted || y == x
    ensures forall y :: y in r ==> IsArrayIndex(key(y))
  {
    if sorted == [] then [x]
    else
      var last := sorted[|sorted| - 1];
      assert last in sorted;
      assert IsArrayIndex(key(last));
      assert AllDigits(key(last));
      if DigitsValue(key(last)) <= DigitsValue(key(x)) then sorted + [x]
      else
        assert sorted == sorted[..|sorted| - 1] + [last];
        InsertByIndex(sorted[..|sorted| - 1], x, key) + [last]
  }

  function SortByIndex<T>(s: seq<T>, key: T -> string): (r: seq<T>)
    requires forall y :: y in s ==> IsArrayIndex(key(y))
    ensures multiset(r) == multiset(s)
    ensures forall y :: y in r ==> IsArrayIndex(key(y))
  {
    if s == [] then []
    else
      assert s == s[..|s| - 1] + [s[|s| - 1]];
      InsertByIndex(SortByIndex(s[..|s| - 1], key), s[|s| - 1], key)
  }

  /** The order of `Object.values` / `Object.entries` on a record whose keys were added in
      the order of `s`: array-index keys first, by value, then the others in insertion
      order. */
  function ObjectOrder<T>(s: seq<T>, key: T -> string): (r: seq<T>)
    ensures multiset(r) == multiset(s)
    ensures |r| == |s|
  {
    var ix := IndexKeyed(s, key);
    assert forall y :: y in ix ==> IsArrayIndex(key(y)) by {
      IndexKeyedAreIndices(s, key);
    }
    KeyedSplit(s, key);
    assert |multiset(SortByIndex(ix, key) + NameKeyed(s, key))| == |multiset(s)|;
    SortByIndex(ix, key) + NameKeyed(s, key)
  }

  lemma {:induction false} KeyedSplit<T>(s: seq<T>, key: T -> string)
    ensures multiset(IndexKeyed(s, key)) + multiset(NameKeyed(s, key)) == multiset(s)
  {
    if s != [] {
      KeyedSplit(s[..|s| - 1], key);
      assert s == s[..|s| - 1] + [s[|s| - 1]];
    }
  }

  lemma {:induction false} IndexKeyedAreIndices<T>(s: seq<T>, key: T -> string)
    ensures forall y :: y in IndexKeyed(s, key) ==> IsArrayIndex(key(y))
  {
    if s != [] {
      IndexKeyedAreIndices(s[..|s| - 1], key);
    }
  }
}
