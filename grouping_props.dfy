/** What `groupAssessments` promises: every record is shown exactly once, a base
    name shared by two or more records becomes one group, groups come before the
    records left on their own, and those keep their input order. */
module GroupingProps {
  import opened Common
  import opened Grouping
  import opened GroupingSort

  // ---------------------------------------------------------------------------
  // Reference definitions
  // ---------------------------------------------------------------------------

  /** The records of `s` whose bucket key is `k`, in input order. */
  function WithKey(s: seq<Assessment>, k: string): seq<Assessment> {
    if s == [] then []
    else WithKey(s[..|s| - 1], k) + (if KeyOf(s[|s| - 1]) == Some(k) then [s[|s| - 1]] else [])
  }

  /** The position of the first record of `s` whose bucket key is `k`, or |s| if none. */
  function KeyFirst(s: seq<Assessment>, k: string): (r: nat)
    ensures r <= |s|
  {
    if s == [] then 0
    else
      var f := KeyFirst(s[..|s| - 1], k);
      if f < |s| - 1 then f else if KeyOf(s[|s| - 1]) == Some(k) then |s| - 1 else |s|
  }

  lemma {:induction false} KeyFirstPresent(s: seq<Assessment>, k: string)
    ensures KeyFirst(s, k) < |s| <==> WithKey(s, k) != []
  {
    if s != [] {
      KeyFirstPresent(s[..|s| - 1], k);
    }
  }

  /** The records of `s` that have no bucket key. */
  function NoKey(s: seq<Assessment>): seq<Assessment> {
    if s == [] then []
    else NoKey(s[..|s| - 1]) + (if KeyOf(s[|s| - 1]).None? then [s[|s| - 1]] else [])
  }

  /** Record ids are unique (they are database keys). */
  predicate DistinctIds(s: seq<Assessment>) {
    forall i, j :: 0 <= i < j < |s| ==> s[i].id != s[j].id
  }

  /** A record of `flat` that is shown on its own: it has no base name, or no other
      record shares its base name. */
  predicate IsLoner(flat: seq<Assessment>, x: Assessment) {
    KeyOf(x).None? || |WithKey(flat, KeyOf(x).value)| <= 1
  }

  /** The records of `s` that are loners of `flat`, in the order of `s`. */
  function Loners(flat: seq<Assessment>, s: seq<Assessment>): seq<Assessment> {
    if s == [] then []
    else Loners(flat, s[..|s| - 1]) + (if IsLoner(flat, s[|s| - 1]) then [s[|s| - 1]] else [])
  }

  /** The records shown as single rows, in display order. */
  function SingleRecords(items: seq<DisplayItem>): seq<Assessment> {
    if items == [] then []
    else
      SingleRecords(items[..|items| - 1])
      + (if items[|items| - 1].Single? then [items[|items| - 1].a] else [])
  }

  // ---------------------------------------------------------------------------
  // Buckets
  // ---------------------------------------------------------------------------

  predicate KeysDistinct(b: seq<Bucket>) {
    forall i, j :: 0 <= i < j < |b| ==> b[i].key != b[j].key
  }

  predicate HasKey(b: seq<Bucket>, k: string) {
    exists j :: 0 <= j < |b| && b[j].key == k
  }

  /** No id occurs in two different buckets. */
  predicate IdsApart(b: seq<Bucket>) {
    forall i, j, x, y :: 0 <= i < |b| && 0 <= j < |b| && i != j && x in b[i].items && y in b[j].items
      ==> x.id != y.id
  }

  function Concat(b: seq<Bucket>): seq<Assessment> {
    if b == [] then [] else Concat(b[..|b| - 1]) + b[|b| - 1].items
  }

  /** The records of the buckets that become groups. */
  function ConcatMulti(b: seq<Bucket>): seq<Assessment> {
    if b == [] then []
    else ConcatMulti(b[..|b| - 1]) + (if |b[|b| - 1].items| > 1 then b[|b| - 1].items else [])
  }

  /** The records of the buckets that do not. */
  function ConcatSingle(b: seq<Bucket>): seq<Assessment> {
    if b == [] then []
    else ConcatSingle(b[..|b| - 1]) + (if |b[|b| - 1].items| > 1 then [] else b[|b| - 1].items)
  }

  /** The ids that belong to a bucket of more than one record. */
  function MultiIds(b: seq<Bucket>): set<string> {
    if b == [] then {}
    else MultiIds(b[..|b| - 1]) + (if |b[|b| - 1].items| > 1 then Ids(b[|b| - 1].items) else {})
  }

  lemma {:induction false} WithKeyIn(s: seq<Assessment>, k: string, x: Assessment)
    ensures x in WithKey(s, k) <==> x in s && KeyOf(x) == Some(k)
  {
    if s != [] {
      WithKeyIn(s[..|s| - 1], k, x);
      assert s == s[..|s| - 1] + [s[|s| - 1]];
    }
  }

  /** `b` is the bucket list of `flat`: one bucket per base name, each holding exactly
      the records with that base name, in input order. */
  ghost predicate BucketsOf(b: seq<Bucket>, flat: seq<Assessment>) {
    && KeysDistinct(b)
    && (forall i :: 0 <= i < |b| ==> b[i].items == WithKey(flat, b[i].key))
    && (forall k :: HasKey(b, k) <==> WithKey(flat, k) != [])
  }

  lemma CollectStepNoKey(b: seq<Bucket>, p: seq<Assessment>, a: Assessment)
    requires BucketsOf(b, p) && KeyOf(a).None?
    ensures BucketsOf(CollectStep(b, a), p + [a])
  {
    assert (p + [a])[..|p|] == p;
    assert forall k :: WithKey(p + [a], k) == WithKey(p, k);
  }

  lemma CollectStepOld(b: seq<Bucket>, p: seq<Assessment>, a: Assessment, i: nat)
    requires BucketsOf(b, p) && KeyOf(a).Some? && BucketIndex(b, KeyOf(a).value) == Some(i)
    ensures BucketsOf(CollectStep(b, a), p + [a])
  {
    var k0 := KeyOf(a).value;
    var b1 := CollectStep(b, a);
    var flat := p + [a];
    assert flat[..|p|] == p;
    assert b1 == b[i := Bucket(k0, b[i].items + [a])];
    assert b1[i].key == k0;
    assert WithKey(flat, k0) == WithKey(p, k0) + [a];
    assert forall k :: k != k0 ==> WithKey(flat, k) == WithKey(p, k);
    forall k
      ensures HasKey(b1, k) <==> WithKey(flat, k) != []
    {
      if HasKey(b1, k) {
        var j :| 0 <= j < |b1| && b1[j].key == k;
        assert b[j].key == k;
      }
      if HasKey(b, k) {
        var j :| 0 <= j < |b| && b[j].key == k;
        assert b1[j].key == k;
      }
    }
  }

  lemma CollectStepNew(b: seq<Bucket>, p: seq<Assessment>, a: Assessment)
    requires BucketsOf(b, p) && KeyOf(a).Some? && BucketIndex(b, KeyOf(a).value).None?
    ensures BucketsOf(CollectStep(b, a), p + [a])
  {
    var k0 := KeyOf(a).value;
    var b1 := CollectStep(b, a);
    var flat := p + [a];
    assert flat[..|p|] == p;
    assert b1 == b + [Bucket(k0, [a])];
    assert !HasKey(b, k0);
    assert b1[|b|].key == k0;
    assert WithKey(flat, k0) == WithKey(p, k0) + [a];
    assert forall k :: k != k0 ==> WithKey(flat, k) == WithKey(p, k);
    assert KeysDistinct(b1);
    assert forall i :: 0 <= i < |b1| ==> b1[i].items == WithKey(flat, b1[i].key);
    forall k
      ensures HasKey(b1, k) <==> WithKey(flat, k) != []
    {
      if HasKey(b1, k) {
        var j :| 0 <= j < |b1| && b1[j].key == k;
        if j < |b| {
          assert b[j].key == k;
        }
      }
      if HasKey(b, k) {
        var j :| 0 <= j < |b| && b[j].key == k;
        assert b1[j].key == k;
      }
    }
  }

  /** page.tsx:73-82: the first pass builds the bucket list of its input. */
  lemma {:induction false} CollectBucketsChar(flat: seq<Assessment>)
    ensures BucketsOf(CollectBuckets(flat), flat)
  {
    if flat != [] {
      var p, a := flat[..|flat| - 1], flat[|flat| - 1];
      var b0 := CollectBuckets(p);
      CollectBucketsChar(p);
      assert flat == p + [a];
      match KeyOf(a)
      case None => CollectStepNoKey(b0, p, a);
      case Some(k0) =>
        match BucketIndex(b0, k0)
        case Some(i) => CollectStepOld(b0, p, a, i);
        case None => CollectStepNew(b0, p, a);
    }
  }

  /** Buckets appear in the order in which their base names first occur in `flat`. */
  predicate KeysInOrder(b: seq<Bucket>, flat: seq<Assessment>) {
    forall i, j :: 0 <= i < j < |b| ==> KeyFirst(flat, b[i].key) < KeyFirst(flat, b[j].key)
  }

  lemma CollectStepOrdered(b: seq<Bucket>, p: seq<Assessment>, a: Assessment)
    requires BucketsOf(b, p) && KeysInOrder(b, p)
    ensures KeysInOrder(CollectStep(b, a), p + [a])
  {
    var flat := p + [a];
    var b1 := CollectStep(b, a);
    assert flat[..|p|] == p;
    forall i | 0 <= i < |b|
      ensures KeyFirst(flat, b[i].key) == KeyFirst(p, b[i].key) < |p|
    {
      assert HasKey(b, b[i].key);
      KeyFirstPresent(p, b[i].key);
    }
    match KeyOf(a)
    case None =>
    case Some(k0) =>
      match BucketIndex(b, k0)
      case Some(i) =>
        assert b1 == b[i := Bucket(k0, b[i].items + [a])];
        forall j, l | 0 <= j < l < |b1|
          ensures KeyFirst(flat, b1[j].key) < KeyFirst(flat, b1[l].key)
        {
          assert b1[j].key == b[j].key && b1[l].key == b[l].key;
        }
      case None =>
        assert b1 == b + [Bucket(k0, [a])];
        assert !HasKey(b, k0);
        KeyFirstPresent(p, k0);
        forall j, l | 0 <= j < l < |b1|
          ensures KeyFirst(flat, b1[j].key) < KeyFirst(flat, b1[l].key)
        {
          if l == |b| {
            assert b1[j] == b[j];
          } else {
            assert b1[j] == b[j] && b1[l] == b[l];
          }
        }
  }

  /** page.tsx:73-82: buckets are created in order of first use of their base name. */
  lemma {:induction false} CollectBucketsOrdered(flat: seq<Assessment>)
    ensures KeysInOrder(CollectBuckets(flat), flat)
  {
    if flat != [] {
      var p, a := flat[..|flat| - 1], flat[|flat| - 1];
      CollectBucketsOrdered(p);
      CollectBucketsChar(p);
      CollectStepOrdered(CollectBuckets(p), p, a);
      assert flat == p + [a];
    }
  }

  // ---------------------------------------------------------------------------
  // The processed ids
  // ---------------------------------------------------------------------------

  lemma {:induction false} MultiIdsMember(b: seq<Bucket>, id: string)
    ensures id in MultiIds(b) <==>
      exists j, y :: 0 <= j < |b| && |b[j].items| > 1 && y in b[j].items && y.id == id
  {
    if b != [] {
      var front := b[..|b| - 1];
      MultiIdsMember(front, id);
      if exists j, y :: 0 <= j < |front| && |front[j].items| > 1 && y in front[j].items && y.id == id {
        var j, y :| 0 <= j < |front| && |front[j].items| > 1 && y in front[j].items && y.id == id;
        assert b[j] == front[j];
      }
      if exists j, y :: 0 <= j < |b| && |b[j].items| > 1 && y in b[j].items && y.id == id {
        var j, y :| 0 <= j < |b| && |b[j].items| > 1 && y in b[j].items && y.id == id;
        if j < |front| {
          assert front[j] == b[j];
        }
      }
    }
  }

  /** page.tsx:84-90: when no id is in two buckets, the second pass marks exactly the
      ids of the buckets that hold more than one record. */
  lemma {:induction false} ProcessedIdsChar(b: seq<Bucket>)
    requires IdsApart(b)
    ensures ProcessedIds(b) == MultiIds(b)
  {
    if b != [] {
      var front, last := b[..|b| - 1], b[|b| - 1];
      assert IdsApart(front) by {
        forall i, j, x, y | 0 <= i < |front| && 0 <= j < |front| && i != j && x in front[i].items && y in front[j].items
          ensures x.id != y.id
        {
          assert front[i] == b[i] && front[j] == b[j];
        }
      }
      ProcessedIdsChar(front);
      if |last.items| == 1 {
        var id := last.items[0].id;
        MultiIdsMember(front, id);
      }
    }
  }

  /** Distinct ids in the input keep ids apart across buckets. */
  lemma IdsApartOf(flat: seq<Assessment>)
    requires DistinctIds(flat)
    ensures IdsApart(CollectBuckets(flat))
  {
    CollectBucketsChar(flat);
    BucketsApart(CollectBuckets(flat), flat);
  }

  lemma BucketsApart(b: seq<Bucket>, flat: seq<Assessment>)
    requires DistinctIds(flat) && BucketsOf(b, flat)
    ensures IdsApart(b)
  {
    forall i, j, x, y | 0 <= i < |b| && 0 <= j < |b| && i != j && x in b[i].items && y in b[j].items
      ensures x.id != y.id
    {
      WithKeyIn(flat, b[i].key, x);
      WithKeyIn(flat, b[j].key, y);
    }
  }

  // ---------------------------------------------------------------------------
  // Every record is shown exactly once
  // ---------------------------------------------------------------------------

  lemma {:induction false} FlattenAppend(a: seq<DisplayItem>, b: seq<DisplayItem>)
    ensures Flatten(a + b) == Flatten(a) + Flatten(b)
    decreases |b|
  {
    if b == [] {
      assert a + b == a;
    } else {
      assert (a + b)[..|a + b| - 1] == a + b[..|b| - 1];
      FlattenAppend(a, b[..|b| - 1]);
    }
  }

  lemma {:induction false} FlattenSingles(s: seq<Assessment>)
    ensures Flatten(SinglesAsItems(s)) == s
  {
    if s != [] {
      FlattenSingles(s[..|s| - 1]);
      var r := SinglesAsItems(s);
      assert r[..|r| - 1] == SinglesAsItems(s[..|s| - 1]);
    }
  }

  lemma {:induction false} FlattenGroupItems(b: seq<Bucket>)
    ensures multiset(Flatten(GroupItems(b))) == multiset(ConcatMulti(b))
  {
    if b != [] {
      var front, last := b[..|b| - 1], b[|b| - 1];
      FlattenGroupItems(front);
      FlattenAppend(GroupItems(front), GroupOf(last));
      if |last.items| > 1 {
        SortByNumberPerm(last.items);
        assert Flatten([MakeGroup(last)]) == [] + SortByNumber(last.items);
      }
    }
  }

  lemma {:induction false} ConcatSplit(b: seq<Bucket>)
    ensures multiset(Concat(b)) == multiset(ConcatMulti(b)) + multiset(ConcatSingle(b))
  {
    if b != [] {
      ConcatSplit(b[..|b| - 1]);
    }
  }

  lemma {:induction false} ConcatUpdate(b: seq<Bucket>, i: nat, k: string, a: Assessment)
    requires i < |b|
    ensures multiset(Concat(b[i := Bucket(k, b[i].items + [a])])) == multiset(Concat(b)) + multiset{a}
  {
    var b1 := b[i := Bucket(k, b[i].items + [a])];
    var front, last := b[..|b| - 1], b[|b| - 1];
    assert multiset(Concat(b)) == multiset(Concat(front)) + multiset(last.items);
    if i == |b| - 1 {
      assert Concat(b1) == Concat(front) + (last.items + [a]) by {
        assert b1[..|b1| - 1] == front;
      }
      assert multiset(Concat(b1)) == multiset(Concat(front)) + multiset(last.items) + multiset{a};
    } else {
      var front1 := front[i := Bucket(k, front[i].items + [a])];
      assert Concat(b1) == Concat(front1) + last.items by {
        assert b1[..|b1| - 1] == front1;
      }
      ConcatUpdate(front, i, k, a);
      assert multiset(Concat(b1)) == multiset(Concat(front1)) + multiset(last.items);
    }
  }

  lemma ConcatStep(b: seq<Bucket>, a: Assessment)
    ensures multiset(Concat(CollectStep(b, a)))
         == multiset(Concat(b)) + (if KeyOf(a).Some? then multiset{a} else multiset{})
  {
    match KeyOf(a)
    case None =>
    case Some(k) =>
      match BucketIndex(b, k)
      case Some(i) => ConcatUpdate(b, i, k, a);
      case None => assert Concat(b + [Bucket(k, [a])]) == Concat(b) + [a];
  }

  lemma {:induction false} ConcatCollect(flat: seq<Assessment>)
    ensures multiset(Concat(CollectBuckets(flat))) + multiset(NoKey(flat)) == multiset(flat)
  {
    if flat != [] {
      var p, a := flat[..|flat| - 1], flat[|flat| - 1];
      var b0 := CollectBuckets(p);
      ConcatCollect(p);
      ConcatStep(b0, a);
      assert multiset(flat) == multiset(p) + multiset{a} by {
        assert flat == p + [a];
      }
      var keyed := KeyOf(a).Some?;
      CountStep(multiset(Concat(b0)), multiset(Concat(CollectBuckets(flat))),
                multiset(NoKey(p)), multiset(NoKey(flat)), multiset(p), multiset(flat), a, keyed);
    }
  }

  /** The counting step of `ConcatCollect`, on multisets alone. */
  lemma CountStep(cb0: multiset<Assessment>, cb1: multiset<Assessment>, n0: multiset<Assessment>,
                  n1: multiset<Assessment>, m0: multiset<Assessment>, m1: multiset<Assessment>,
                  a: Assessment, keyed: bool)
    requires cb0 + n0 == m0 && m1 == m0 + multiset{a}
    requires cb1 == cb0 + (if keyed then multiset{a} else multiset{})
    requires n1 == n0 + (if keyed then multiset{} else multiset{a})
    ensures cb1 + n1 == m1
  {
  }

  lemma {:induction false} SinglesCount(s: seq<Assessment>, P: set<string>, x: Assessment)
    ensures multiset(Singles(s, P))[x] == if x.id in P then 0 else multiset(s)[x]
  {
    if s != [] {
      SinglesCount(s[..|s| - 1], P, x);
      assert s == s[..|s| - 1] + [s[|s| - 1]];
    }
  }

  lemma {:induction false} ConcatMultiMember(b: seq<Bucket>, x: Assessment)
    ensures x in ConcatMulti(b) <==> exists j :: 0 <= j < |b| && |b[j].items| > 1 && x in b[j].items
  {
    if b != [] {
      var front, last := b[..|b| - 1], b[|b| - 1];
      ConcatMultiMember(front, x);
      assert ConcatMulti(b) == ConcatMulti(front) + (if |last.items| > 1 then last.items else []);
      if x in ConcatMulti(front) {
        var j :| 0 <= j < |front| && |front[j].items| > 1 && x in front[j].items;
        assert b[j] == front[j];
      }
      if exists j :: 0 <= j < |b| && |b[j].items| > 1 && x in b[j].items {
        var j :| 0 <= j < |b| && |b[j].items| > 1 && x in b[j].items;
        if j < |front| {
          assert front[j] == b[j];
        }
      }
    }
  }

  lemma DistinctIdsCount(s: seq<Assessment>, x: Assessment)
    requires DistinctIds(s)
    ensures multiset(s)[x] <= 1
  {
    if x in s {
      assert Distinct(s) by {
        forall i, j | 0 <= i < j < |s|
          ensures s[i] != s[j]
        {
          assert s[i].id != s[j].id;
        }
      }
      DistinctCount(s, x);
      CountMultiset(s, x);
    }
  }

  /** A record of the input whose id is marked belongs to a group-forming bucket. */
  lemma MarkedRecordIsChild(flat: seq<Assessment>, b: seq<Bucket>, x: Assessment)
    requires DistinctIds(flat) && BucketsOf(b, flat)
    requires x in flat && x.id in MultiIds(b)
    ensures x in ConcatMulti(b)
  {
    MultiIdsMember(b, x.id);
    var j, y :| 0 <= j < |b| && |b[j].items| > 1 && y in b[j].items && y.id == x.id;
    WithKeyIn(flat, b[j].key, y);
    ConcatMultiMember(b, x);
  }

  lemma ChildIsMarked(b: seq<Bucket>, x: Assessment)
    requires x in ConcatMulti(b)
    ensures x.id in MultiIds(b)
  {
    ConcatMultiMember(b, x);
    MultiIdsMember(b, x.id);
  }

  /** One record's count: it is counted among the group children or among the singles. */
  lemma PartitionAt(flat: seq<Assessment>, x: Assessment)
    requires DistinctIds(flat)
    ensures var b := CollectBuckets(flat);
      multiset(ConcatMulti(b))[x] + multiset(Singles(flat, ProcessedIds(b)))[x] == multiset(flat)[x]
  {
    var b := CollectBuckets(flat);
    IdsApartOf(flat);
    ProcessedIdsChar(b);
    ConcatSplit(b);
    ConcatCollect(flat);
    CollectBucketsChar(flat);
    SinglesCount(flat, ProcessedIds(b), x);
    DistinctIdsCount(flat, x);
    CountsAt(flat, b, Singles(flat, ProcessedIds(b)), x);
  }

  lemma CountsAt(flat: seq<Assessment>, b: seq<Bucket>, S: seq<Assessment>, x: Assessment)
    requires DistinctIds(flat) && BucketsOf(b, flat)
    requires multiset(ConcatMulti(b)) + multiset(ConcatSingle(b)) + multiset(NoKey(flat)) == multiset(flat)
    requires multiset(S)[x] == if x.id in MultiIds(b) then 0 else multiset(flat)[x]
    requires multiset(flat)[x] <= 1
    ensures multiset(ConcatMulti(b))[x] + multiset(S)[x] == multiset(flat)[x]
  {
    if x.id in MultiIds(b) {
      if x in flat {
        MarkedRecordIsChild(flat, b, x);
      }
    } else if x in ConcatMulti(b) {
      ChildIsMarked(b, x);
    }
  }

  /** page.tsx:61-122: with unique ids, the display items show every input record
      exactly once, as a group child or as a single row. */
  lemma GroupAssessmentsPartition(flat: seq<Assessment>)
    requires DistinctIds(flat)
    ensures multiset(Flatten(GroupAssessments(flat))) == multiset(flat)
  {
    var b := CollectBuckets(flat);
    var S := Singles(flat, ProcessedIds(b));
    assert GroupAssessments(flat) == GroupItems(b) + SinglesAsItems(S);
    forall x
      ensures multiset(ConcatMulti(b))[x] + multiset(S)[x] == multiset(flat)[x]
    {
      PartitionAt(flat, x);
    }
    FlattenParts(b, S);
    assert multiset(ConcatMulti(b)) + multiset(S) == multiset(flat);
  }

  lemma FlattenParts(b: seq<Bucket>, S: seq<Assessment>)
    ensures multiset(Flatten(GroupItems(b) + SinglesAsItems(S))) == multiset(ConcatMulti(b)) + multiset(S)
  {
    FlattenAppend(GroupItems(b), SinglesAsItems(S));
    FlattenSingles(S);
    FlattenGroupItems(b);
  }

  // ---------------------------------------------------------------------------
  // Which groups appear, and what they hold
  // ---------------------------------------------------------------------------

  /** The buckets that become groups, in bucket order. */
  function MultiBuckets(b: seq<Bucket>): seq<Bucket> {
    if b == [] then []
    else MultiBuckets(b[..|b| - 1]) + (if |b[|b| - 1].items| > 1 then [b[|b| - 1]] else [])
  }

  lemma {:induction false} GroupItemsMap(b: seq<Bucket>)
    ensures |GroupItems(b)| == |MultiBuckets(b)|
    ensures forall j :: 0 <= j < |GroupItems(b)| ==> GroupItems(b)[j] == MakeGroup(MultiBuckets(b)[j])
  {
    if b != [] {
      GroupItemsMap(b[..|b| - 1]);
    }
  }

  lemma {:induction false} MultiBucketsChar(b: seq<Bucket>)
    ensures forall j :: 0 <= j < |MultiBuckets(b)| ==>
              |MultiBuckets(b)[j].items| > 1 && exists i :: 0 <= i < |b| && MultiBuckets(b)[j] == b[i]
    ensures forall i :: 0 <= i < |b| && |b[i].items| > 1 ==> b[i] in MultiBuckets(b)
    ensures KeysDistinct(b) ==> KeysDistinct(MultiBuckets(b))
  {
    if b != [] {
      var front, last := b[..|b| - 1], b[|b| - 1];
      var M0, M := MultiBuckets(front), MultiBuckets(b);
      MultiBucketsChar(front);
      forall j | 0 <= j < |M|
        ensures exists i :: 0 <= i < |b| && M[j] == b[i]
      {
        if j < |M0| {
          var i :| 0 <= i < |front| && M0[j] == front[i];
          assert b[i] == front[i];
        } else {
          assert M[j] == b[|b| - 1];
        }
      }
      forall i | 0 <= i < |b| && |b[i].items| > 1
        ensures b[i] in M
      {
        if i < |front| {
          assert front[i] == b[i];
        }
      }
      if KeysDistinct(b) {
        assert KeysDistinct(front) by {
          forall i, j | 0 <= i < j < |front|
            ensures front[i].key != front[j].key
          {
            assert front[i] == b[i] && front[j] == b[j];
          }
        }
        forall i, j | 0 <= i < j < |M|
          ensures M[i].key != M[j].key
        {
          if j == |M0| {
            var i' :| 0 <= i' < |front| && M0[i] == front[i'];
            assert b[i'] == front[i'];
          } else {
            assert M[i] == M0[i] && M[j] == M0[j];
          }
        }
      }
    }
  }

  /** Where each group-forming bucket sits in the bucket list. */
  function MultiIndices(b: seq<Bucket>): seq<nat> {
    if b == [] then []
    else MultiIndices(b[..|b| - 1]) + (if |b[|b| - 1].items| > 1 then [|b| - 1] else [])
  }

  /** The group-forming buckets keep their relative order. */
  lemma {:induction false} MultiIndicesFacts(b: seq<Bucket>)
    ensures |MultiIndices(b)| == |MultiBuckets(b)|
    ensures forall j :: 0 <= j < |MultiIndices(b)| ==>
              MultiIndices(b)[j] < |b| && MultiBuckets(b)[j] == b[MultiIndices(b)[j]]
    ensures forall i, j :: 0 <= i < j < |MultiIndices(b)| ==> MultiIndices(b)[i] < MultiIndices(b)[j]
  {
    if b != [] {
      var front := b[..|b| - 1];
      MultiIndicesFacts(front);
      var idx0, idx := MultiIndices(front), MultiIndices(b);
      forall j | 0 <= j < |idx0|
        ensures idx[j] < |b| && MultiBuckets(b)[j] == b[idx[j]]
      {
        assert idx[j] == idx0[j];
        assert MultiBuckets(b)[j] == MultiBuckets(front)[j];
        assert front[idx0[j]] == b[idx0[j]];
      }
    }
  }

  lemma MultiBucketsInOrder(b: seq<Bucket>, flat: seq<Assessment>)
    requires KeysInOrder(b, flat)
    ensures KeysInOrder(MultiBuckets(b), flat)
  {
    MultiIndicesFacts(b);
    var m, idx := MultiBuckets(b), MultiIndices(b);
    forall i, j | 0 <= i < j < |m|
      ensures KeyFirst(flat, m[i].key) < KeyFirst(flat, m[j].key)
    {
      assert idx[i] < idx[j];
    }
  }

  lemma {:induction false} GroupItemsAreGroups(b: seq<Bucket>)
    ensures forall j :: 0 <= j < |GroupItems(b)| ==> GroupItems(b)[j].Group?
  {
    if b != [] {
      GroupItemsAreGroups(b[..|b| - 1]);
    }
  }

  lemma {:induction false} SingleRecordsAppend(a: seq<DisplayItem>, b: seq<DisplayItem>)
    ensures SingleRecords(a + b) == SingleRecords(a) + SingleRecords(b)
    decreases |b|
  {
    if b == [] {
      assert a + b == a;
    } else {
      assert (a + b)[..|a + b| - 1] == a + b[..|b| - 1];
      SingleRecordsAppend(a, b[..|b| - 1]);
    }
  }

  lemma {:induction false} SingleRecordsOfGroups(items: seq<DisplayItem>)
    requires forall j :: 0 <= j < |items| ==> items[j].Group?
    ensures SingleRecords(items) == []
  {
    if items != [] {
      SingleRecordsOfGroups(items[..|items| - 1]);
    }
  }

  lemma {:induction false} SingleRecordsOfSingles(s: seq<Assessment>)
    ensures SingleRecords(SinglesAsItems(s)) == s
  {
    if s != [] {
      var r := SinglesAsItems(s);
      assert r[..|r| - 1] == SinglesAsItems(s[..|s| - 1]);
      SingleRecordsOfSingles(s[..|s| - 1]);
    }
  }

  lemma {:induction false} SinglesAreLoners(flat: seq<Assessment>, s: seq<Assessment>, P: set<string>)
    requires forall x :: x in s ==> (x.id !in P <==> IsLoner(flat, x))
    ensures Singles(s, P) == Loners(flat, s)
  {
    if s != [] {
      SinglesAreLoners(flat, s[..|s| - 1], P);
    }
  }

  /** A record of the input is marked exactly when it is no loner. */
  lemma MarkedIffGrouped(flat: seq<Assessment>, b: seq<Bucket>, x: Assessment)
    requires DistinctIds(flat) && BucketsOf(b, flat) && x in flat
    ensures x.id in MultiIds(b) <==> !IsLoner(flat, x)
  {
    if x.id in MultiIds(b) {
      MarkedRecordIsChild(flat, b, x);
      ConcatMultiMember(b, x);
      var j :| 0 <= j < |b| && |b[j].items| > 1 && x in b[j].items;
      WithKeyIn(flat, b[j].key, x);
    }
    if !IsLoner(flat, x) {
      var k := KeyOf(x).value;
      assert HasKey(b, k);
      var i :| 0 <= i < |b| && b[i].key == k;
      WithKeyIn(flat, k, x);
      MultiIdsMember(b, x.id);
    }
  }

  /** page.tsx:73-117: a base name shared by two or more records becomes exactly one
      group, whose id is the base name, whose name is its plural, whose children are
      those records sorted by number (ties in input order), and whose weight is theirs
      summed; groups come first, in order of the first use of their base name. */
  lemma GroupAssessmentsGroups(flat: seq<Assessment>)
    ensures var r := GroupAssessments(flat);
      forall k :: (exists j :: 0 <= j < |r| && r[j].Group? && r[j].id == k) <==> |WithKey(flat, k)| > 1
    ensures var r := GroupAssessments(flat);
      forall j :: 0 <= j < |r| && r[j].Group? ==> GroupFits(flat, r[j])
    ensures var r := GroupAssessments(flat);
      forall i, j :: 0 <= i < j < |r| && r[j].Group? ==> r[i].Group?
    ensures var r := GroupAssessments(flat);
      forall i, j :: 0 <= i < j < |r| && r[i].Group? && r[j].Group? ==>
        KeyFirst(flat, r[i].id) < KeyFirst(flat, r[j].id)
  {
    var b := CollectBuckets(flat);
    var S := Singles(flat, ProcessedIds(b));
    var r := GroupAssessments(flat);
    assert r == GroupItems(b) + SinglesAsItems(S);
    CollectBucketsChar(flat);
    GroupItemsMap(b);
    GroupItemsAreGroups(b);
    MultiBucketsChar(b);
    GroupsThreshold(flat, b, S, r);
    GroupsContent(flat, b, S, r);
    CollectBucketsOrdered(flat);
    MultiBucketsInOrder(b, flat);
    GroupsOrder(flat, b, S, r);
  }

  /** A group built for `flat`: named by its id, holding the records with that base
      name ordered by number (ties in input order), weighing their total. */
  ghost predicate GroupFits(flat: seq<Assessment>, g: DisplayItem)
    requires g.Group?
  {
    && g.name == Pluralize(g.id)
    && multiset(g.children) == multiset(WithKey(flat, g.id))
    && SortedByNumber(g.children)
    && (forall n: nat :: WithNumber(g.children, n) == WithNumber(WithKey(flat, g.id), n))
    && g.totalWeight == SumWeights(WithKey(flat, g.id))
  }

  lemma GroupsThreshold(flat: seq<Assessment>, b: seq<Bucket>, S: seq<Assessment>, r: seq<DisplayItem>)
    requires BucketsOf(b, flat) && r == GroupItems(b) + SinglesAsItems(S)
    requires |GroupItems(b)| == |MultiBuckets(b)|
    requires forall j :: 0 <= j < |GroupItems(b)| ==> GroupItems(b)[j] == MakeGroup(MultiBuckets(b)[j])
    requires forall j :: 0 <= j < |MultiBuckets(b)| ==>
               |MultiBuckets(b)[j].items| > 1 && exists i :: 0 <= i < |b| && MultiBuckets(b)[j] == b[i]
    requires forall i :: 0 <= i < |b| && |b[i].items| > 1 ==> b[i] in MultiBuckets(b)
    ensures forall k :: (exists j :: 0 <= j < |r| && r[j].Group? && r[j].id == k) <==> |WithKey(flat, k)| > 1
  {
    var G, M := GroupItems(b), MultiBuckets(b);
    forall k
      ensures (exists j :: 0 <= j < |r| && r[j].Group? && r[j].id == k) <==> |WithKey(flat, k)| > 1
    {
      if exists j :: 0 <= j < |r| && r[j].Group? && r[j].id == k {
        var j :| 0 <= j < |r| && r[j].Group? && r[j].id == k;
        if j < |G| {
          assert r[j] == G[j];
          var i :| 0 <= i < |b| && M[j] == b[i];
        }
      }
      if |WithKey(flat, k)| > 1 {
        assert HasKey(b, k);
        var i :| 0 <= i < |b| && b[i].key == k;
        var j :| 0 <= j < |M| && M[j] == b[i];
        assert r[j] == G[j];
      }
    }
  }

  lemma GroupsContent(flat: seq<Assessment>, b: seq<Bucket>, S: seq<Assessment>, r: seq<DisplayItem>)
    requires BucketsOf(b, flat) && r == GroupItems(b) + SinglesAsItems(S)
    requires |GroupItems(b)| == |MultiBuckets(b)|
    requires forall j :: 0 <= j < |GroupItems(b)| ==> GroupItems(b)[j] == MakeGroup(MultiBuckets(b)[j])
    requires forall j :: 0 <= j < |MultiBuckets(b)| ==>
               |MultiBuckets(b)[j].items| > 1 && exists i :: 0 <= i < |b| && MultiBuckets(b)[j] == b[i]
    ensures forall j :: 0 <= j < |r| && r[j].Group? ==> GroupFits(flat, r[j])
  {
    var G, M := GroupItems(b), MultiBuckets(b);
    forall j | 0 <= j < |r| && r[j].Group?
      ensures GroupFits(flat, r[j])
    {
      if j < |G| {
        assert r[j] == G[j];
        var i :| 0 <= i < |b| && M[j] == b[i];
        var items := b[i].items;
        SortByNumberPerm(items);
        SortByNumberSum(items);
        SortByNumberSorted(items);
        forall n: nat
          ensures WithNumber(SortByNumber(items), n) == WithNumber(items, n)
        {
          SortByNumberStable(items, n);
        }
      }
    }
  }

  lemma GroupsOrder(flat: seq<Assessment>, b: seq<Bucket>, S: seq<Assessment>, r: seq<DisplayItem>)
    requires r == GroupItems(b) + SinglesAsItems(S)
    requires |GroupItems(b)| == |MultiBuckets(b)|
    requires forall j :: 0 <= j < |GroupItems(b)| ==> GroupItems(b)[j] == MakeGroup(MultiBuckets(b)[j])
    requires forall j :: 0 <= j < |GroupItems(b)| ==> GroupItems(b)[j].Group?
    requires KeysInOrder(MultiBuckets(b), flat)
    ensures forall i, j :: 0 <= i < j < |r| && r[j].Group? ==> r[i].Group?
    ensures forall i, j :: 0 <= i < j < |r| && r[i].Group? && r[j].Group? ==>
              KeyFirst(flat, r[i].id) < KeyFirst(flat, r[j].id)
  {
    var G, M := GroupItems(b), MultiBuckets(b);
    forall j | 0 <= j < |r| && r[j].Group?
      ensures j < |G|
    {
    }
    forall i, j | 0 <= i < j < |r| && r[i].Group? && r[j].Group?
      ensures KeyFirst(flat, r[i].id) < KeyFirst(flat, r[j].id)
    {
      assert r[i] == G[i] && r[j] == G[j];
      assert KeyFirst(flat, M[i].key) < KeyFirst(flat, M[j].key);
    }
    forall i, j | 0 <= i < j < |r| && r[j].Group?
      ensures r[i].Group?
    {
      assert r[i] == G[i];
    }
  }

  /** page.tsx:92-96, 119: with unique ids, the single rows are exactly the loners of
      the input, in input order. */
  lemma GroupAssessmentsSingles(flat: seq<Assessment>)
    requires DistinctIds(flat)
    ensures SingleRecords(GroupAssessments(flat)) == Loners(flat, flat)
  {
    var b := CollectBuckets(flat);
    var P := ProcessedIds(b);
    var S := Singles(flat, P);
    CollectBucketsChar(flat);
    IdsApartOf(flat);
    ProcessedIdsChar(b);
    GroupItemsAreGroups(b);
    SingleRecordsAppend(GroupItems(b), SinglesAsItems(S));
    SingleRecordsOfGroups(GroupItems(b));
    SingleRecordsOfSingles(S);
    forall x | x in flat
      ensures x.id !in P <==> IsLoner(flat, x)
    {
      MarkedIffGrouped(flat, b, x);
    }
    SinglesAreLoners(flat, flat, P);
  }
}
