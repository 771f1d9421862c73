/** Grouping is idempotent: the records a display list shows, grouped again, give the
    same display list.  The groups' children come out of the flattened list contiguous
    and in first-use order, sorting them again changes nothing, and the single rows
    follow them in their own order. */
module GroupingIdempotence {
  import opened Common
  import opened Grouping
  import opened GroupingSort
  import opened GroupingProps

  // ---------------------------------------------------------------------------
  // Sorting twice
  // ---------------------------------------------------------------------------

  /** A list already in number order is its own stable sort. */
  lemma {:induction false} SortSortedIsSame(s: seq<Assessment>)
    requires SortedByNumber(s)
    ensures SortByNumber(s) == s
  {
    if s != [] {
      var front, last := s[..|s| - 1], s[|s| - 1];
      SortedFront(s);
      SortSortedIsSame(front);
      if front != [] {
        assert FirstNumber(front[|front| - 1].name) <= FirstNumber(last.name) by {
          assert front[|front| - 1] == s[|s| - 2];
        }
      }
      assert InsertByNumber(front, last) == front + [last];
      assert s == front + [last];
    }
  }

  lemma SortTwice(s: seq<Assessment>)
    ensures SortByNumber(SortByNumber(s)) == SortByNumber(s)
  {
    SortByNumberSorted(s);
    SortSortedIsSame(SortByNumber(s));
  }

  lemma SortSameMembers(s: seq<Assessment>, x: Assessment)
    ensures x in SortByNumber(s) <==> x in s
    ensures |SortByNumber(s)| == |s|
  {
    SortByNumberPerm(s);
    assert x in SortByNumber(s) <==> x in multiset(SortByNumber(s));
    assert |multiset(SortByNumber(s))| == |multiset(s)|;
  }

  // ---------------------------------------------------------------------------
  // The group buckets with their children sorted
  // ---------------------------------------------------------------------------

  /** Every bucket of `b` with its records in display order. */
  function SortBuckets(b: seq<Bucket>): (r: seq<Bucket>)
    ensures |r| == |b|
    ensures forall j :: 0 <= j < |b| ==> r[j] == Bucket(b[j].key, SortByNumber(b[j].items))
  {
    if b == [] then [] else SortBuckets(b[..|b| - 1]) + [Bucket(b[|b| - 1].key, SortByNumber(b[|b| - 1].items))]
  }

  /** Every bucket holds more than one record. */
  predicate AllMulti(b: seq<Bucket>) {
    forall j :: 0 <= j < |b| ==> |b[j].items| > 1
  }

  lemma {:induction false} GroupItemsOfMulti(b: seq<Bucket>)
    ensures GroupItems(b) == GroupItems(MultiBuckets(b))
  {
    if b != [] {
      var front, last := b[..|b| - 1], b[|b| - 1];
      GroupItemsOfMulti(front);
      var m0, m := MultiBuckets(front), MultiBuckets(b);
      assert GroupItems(b) == GroupItems(front) + GroupOf(last);
      if |last.items| > 1 {
        assert m == m0 + [last];
        assert m[..|m| - 1] == m0;
        assert GroupItems(m) == GroupItems(m0) + GroupOf(last);
      } else {
        assert m == m0;
      }
    }
  }

  lemma {:induction false} MultiIdsOfMulti(b: seq<Bucket>)
    ensures MultiIds(MultiBuckets(b)) == MultiIds(b)
  {
    if b != [] {
      var front, last := b[..|b| - 1], b[|b| - 1];
      MultiIdsOfMulti(front);
      var m0, m := MultiBuckets(front), MultiBuckets(b);
      if |last.items| > 1 {
        assert m == m0 + [last];
        assert m[..|m| - 1] == m0;
        assert MultiIds(m) == MultiIds(m0) + Ids(last.items);
      } else {
        assert m == m0;
      }
    }
  }

  lemma {:induction false} MultiIdsSorted(b: seq<Bucket>)
    requires AllMulti(b)
    ensures AllMulti(SortBuckets(b))
    ensures MultiIds(SortBuckets(b)) == MultiIds(b)
  {
    if b != [] {
      var front, last := b[..|b| - 1], b[|b| - 1];
      var sb := SortBuckets(b);
      assert sb[..|sb| - 1] == SortBuckets(front);
      MultiIdsSorted(front);
      forall x
        ensures x in SortByNumber(last.items) <==> x in last.items
      {
        SortSameMembers(last.items, x);
      }
      SortSameMembers(last.items, last.items[0]);
      assert Ids(SortByNumber(last.items)) == Ids(last.items);
    }
  }

  /** The second pass marks every record of buckets that all form groups. */
  lemma {:induction false} ProcessedOfAllMulti(b: seq<Bucket>)
    requires AllMulti(b)
    ensures ProcessedIds(b) == MultiIds(b)
  {
    if b != [] {
      ProcessedOfAllMulti(b[..|b| - 1]);
    }
  }

  /** The groups built from buckets whose children are already sorted are the same groups. */
  lemma {:induction false} GroupItemsSorted(b: seq<Bucket>)
    requires AllMulti(b)
    ensures GroupItems(SortBuckets(b)) == GroupItems(b)
  {
    if b != [] {
      var front, last := b[..|b| - 1], b[|b| - 1];
      var sb := SortBuckets(b);
      assert sb[..|sb| - 1] == SortBuckets(front);
      GroupItemsSorted(front);
      SortTwice(last.items);
      SortSameMembers(last.items, last.items[0]);
    }
  }

  /** The records shown by the groups of `b` are its group buckets, sorted, end to end. */
  lemma {:induction false} FlattenGroupsIsConcat(b: seq<Bucket>)
    requires AllMulti(b)
    ensures Flatten(GroupItems(b)) == Concat(SortBuckets(b))
  {
    if b != [] {
      var front, last := b[..|b| - 1], b[|b| - 1];
      var sb := SortBuckets(b);
      assert sb[..|sb| - 1] == SortBuckets(front);
      FlattenGroupsIsConcat(front);
      FlattenAppend(GroupItems(front), [MakeGroup(last)]);
      assert Flatten([MakeGroup(last)]) == [] + SortByNumber(last.items);
    }
  }

  lemma {:induction false} ConcatMember(b: seq<Bucket>, x: Assessment)
    requires x in Concat(b)
    ensures exists j :: 0 <= j < |b| && x in b[j].items
  {
    var front, last := b[..|b| - 1], b[|b| - 1];
    if x in Concat(front) {
      ConcatMember(front, x);
      var j :| 0 <= j < |front| && x in front[j].items;
      assert b[j] == front[j];
    } else {
      assert x in last.items;
    }
  }

  // ---------------------------------------------------------------------------
  // The first pass over a list made of runs and loners
  // ---------------------------------------------------------------------------

  /** The first pass continued from `b` over the records of `q`. */
  function CollectFrom(b: seq<Bucket>, q: seq<Assessment>): seq<Bucket> {
    if q == [] then b else CollectStep(CollectFrom(b, q[..|q| - 1]), q[|q| - 1])
  }

  lemma {:induction false} CollectAppend(p: seq<Assessment>, q: seq<Assessment>)
    ensures CollectBuckets(p + q) == CollectFrom(CollectBuckets(p), q)
    decreases |q|
  {
    if q == [] {
      assert p + q == p;
    } else {
      assert (p + q)[..|p + q| - 1] == p + q[..|q| - 1];
      CollectAppend(p, q[..|q| - 1]);
    }
  }

  /** A run of records that all have the fresh key `k` becomes one new bucket. */
  lemma {:induction false} CollectRun(b: seq<Bucket>, k: string, items: seq<Assessment>)
    requires items != [] && !HasKey(b, k)
    requires forall x :: x in items ==> KeyOf(x) == Some(k)
    ensures CollectFrom(b, items) == b + [Bucket(k, items)]
  {
    var front, last := items[..|items| - 1], items[|items| - 1];
    assert KeyOf(last) == Some(k);
    if front == [] {
      assert BucketIndex(b, k).None?;
      assert items == [last];
    } else {
      CollectRun(b, k, front);
      var b1 := b + [Bucket(k, front)];
      assert BucketIndex(b1, k) == Some(|b|);
      assert b1[|b| := Bucket(k, front + [last])] == b + [Bucket(k, front + [last])];
      assert front + [last] == items;
    }
  }

  /** Buckets whose keys are distinct and whose records all carry their bucket's key. */
  ghost predicate Runs(n: seq<Bucket>) {
    && KeysDistinct(n)
    && (forall j :: 0 <= j < |n| ==> n[j].items != [])
    && (forall j, x :: 0 <= j < |n| && x in n[j].items ==> KeyOf(x) == Some(n[j].key))
  }

  lemma RunsFront(n: seq<Bucket>)
    requires Runs(n) && n != []
    ensures Runs(n[..|n| - 1])
    ensures !HasKey(n[..|n| - 1], n[|n| - 1].key)
  {
    var front := n[..|n| - 1];
    forall i, j | 0 <= i < j < |front|
      ensures front[i].key != front[j].key
    {
      assert front[i] == n[i] && front[j] == n[j];
    }
    forall j, x | 0 <= j < |front| && x in front[j].items
      ensures KeyOf(x) == Some(front[j].key)
    {
      assert front[j] == n[j];
    }
    forall j | 0 <= j < |front|
      ensures front[j].key != n[|n| - 1].key
    {
      assert front[j] == n[j];
    }
  }

  /** Grouping the runs laid end to end gives back the runs. */
  lemma {:induction false} CollectConcat(n: seq<Bucket>)
    requires Runs(n)
    ensures CollectBuckets(Concat(n)) == n
  {
    if n != [] {
      var front, last := n[..|n| - 1], n[|n| - 1];
      RunsFront(n);
      CollectConcat(front);
      CollectAppend(Concat(front), last.items);
      CollectRun(front, last.key, last.items);
      assert front + [last] == n;
    }
  }

  /** The one-record buckets that loners with a key make. */
  function LonerBuckets(s: seq<Assessment>): seq<Bucket> {
    if s == [] then []
    else
      LonerBuckets(s[..|s| - 1])
      + match KeyOf(s[|s| - 1])
        case Some(k) => [Bucket(k, [s[|s| - 1]])]
        case None => []
  }

  lemma {:induction false} LonerBucketsFacts(s: seq<Assessment>)
    ensures forall j :: 0 <= j < |LonerBuckets(s)| ==>
      |LonerBuckets(s)[j].items| == 1
      && exists i :: 0 <= i < |s| && KeyOf(s[i]) == Some(LonerBuckets(s)[j].key)
  {
    if s != [] {
      var front := s[..|s| - 1];
      LonerBucketsFacts(front);
      var l0, l := LonerBuckets(front), LonerBuckets(s);
      forall j | 0 <= j < |l|
        ensures |l[j].items| == 1 && exists i :: 0 <= i < |s| && KeyOf(s[i]) == Some(l[j].key)
      {
        if j < |l0| {
          assert l[j] == l0[j];
          var i :| 0 <= i < |front| && KeyOf(front[i]) == Some(l0[j].key);
          assert s[i] == front[i];
        } else {
          assert KeyOf(s[|s| - 1]) == Some(l[j].key);
        }
      }
    }
  }

  lemma LonerBucketsStep(s: seq<Assessment>)
    requires s != []
    ensures LonerBuckets(s) == LonerBuckets(s[..|s| - 1])
      + (if KeyOf(s[|s| - 1]).Some? then [Bucket(KeyOf(s[|s| - 1]).value, [s[|s| - 1]])] else [])
  {
  }

  lemma HasKeyAppend(b: seq<Bucket>, c: seq<Bucket>, k: string)
    ensures HasKey(b + c, k) <==> HasKey(b, k) || HasKey(c, k)
  {
    if HasKey(b + c, k) {
      var j :| 0 <= j < |b + c| && (b + c)[j].key == k;
      if j < |b| {
        assert (b + c)[j] == b[j];
      } else {
        assert (b + c)[j] == c[j - |b|];
      }
    }
    if HasKey(b, k) {
      var j :| 0 <= j < |b| && b[j].key == k;
      assert (b + c)[j] == b[j];
    }
    if HasKey(c, k) {
      var j :| 0 <= j < |c| && c[j].key == k;
      assert (b + c)[j + |b|] == c[j];
    }
  }

  /** A key that no earlier bucket and no earlier loner carries is fresh after them. */
  lemma LonerKeyFresh(b: seq<Bucket>, front: seq<Assessment>, k: string)
    requires !HasKey(b, k)
    requires forall i :: 0 <= i < |front| ==> KeyOf(front[i]) != Some(k)
    ensures !HasKey(b + LonerBuckets(front), k)
  {
    var l0 := LonerBuckets(front);
    LonerBucketsFacts(front);
    forall j | 0 <= j < |l0|
      ensures l0[j].key != k
    {
      var i :| 0 <= i < |front| && KeyOf(front[i]) == Some(l0[j].key);
    }
    HasKeyAppend(b, l0, k);
  }

  /** The buckets `n` followed by the loner buckets of `s`, one record at a time. */
  lemma AfterLonersStep(n: seq<Bucket>, s: seq<Assessment>)
    requires s != []
    ensures KeyOf(s[|s| - 1]).None? ==> n + LonerBuckets(s) == n + LonerBuckets(s[..|s| - 1])
    ensures KeyOf(s[|s| - 1]).Some? ==>
      n + LonerBuckets(s) == (n + LonerBuckets(s[..|s| - 1])) + [Bucket(KeyOf(s[|s| - 1]).value, [s[|s| - 1]])]
  {
    LonerBucketsStep(s);
    var l0 := LonerBuckets(s[..|s| - 1]);
    assert l0 + [] == l0;
  }

  /** Records whose keys are all fresh and pairwise different each open their own bucket. */
  lemma {:induction false} CollectLoners(b: seq<Bucket>, s: seq<Assessment>)
    requires forall i :: 0 <= i < |s| && KeyOf(s[i]).Some? ==> !HasKey(b, KeyOf(s[i]).value)
    requires forall i, j :: 0 <= i < j < |s| && KeyOf(s[i]).Some? ==> KeyOf(s[j]) != KeyOf(s[i])
    ensures CollectFrom(b, s) == b + LonerBuckets(s)
  {
    if s != [] {
      var front, last := s[..|s| - 1], s[|s| - 1];
      forall i | 0 <= i < |front| && KeyOf(front[i]).Some?
        ensures !HasKey(b, KeyOf(front[i]).value)
      {
        assert front[i] == s[i];
      }
      forall i, j | 0 <= i < j < |front| && KeyOf(front[i]).Some?
        ensures KeyOf(front[j]) != KeyOf(front[i])
      {
        assert front[i] == s[i] && front[j] == s[j];
      }
      CollectLoners(b, front);
      AfterLonersStep(b, s);
      assert CollectFrom(b, s) == CollectStep(CollectFrom(b, front), last);
      match KeyOf(last)
      case None =>
      case Some(k) =>
        forall i | 0 <= i < |front|
          ensures KeyOf(front[i]) != Some(k)
        {
          assert front[i] == s[i];
        }
        var b1 := b + LonerBuckets(front);
        LonerKeyFresh(b, front, k);
        assert BucketIndex(b1, k).None?;
    }
  }

  /** A one-record bucket adds no group and no mark of its own. */
  lemma AppendLonerBucket(b0: seq<Bucket>, bk: Bucket)
    requires |bk.items| == 1
    ensures GroupItems(b0 + [bk]) == GroupItems(b0)
    ensures ProcessedIds(b0 + [bk]) == ProcessedIds(b0) - {bk.items[0].id}
  {
    assert (b0 + [bk])[..|b0|] == b0;
  }

  lemma {:induction false} GroupItemsAfterLoners(n: seq<Bucket>, s: seq<Assessment>)
    ensures GroupItems(n + LonerBuckets(s)) == GroupItems(n)
  {
    if s == [] {
      assert n + [] == n;
    } else {
      var front, last := s[..|s| - 1], s[|s| - 1];
      GroupItemsAfterLoners(n, front);
      AfterLonersStep(n, s);
      if KeyOf(last).Some? {
        AppendLonerBucket(n + LonerBuckets(front), Bucket(KeyOf(last).value, [last]));
      }
    }
  }

  lemma {:induction false} ProcessedAfterLoners(n: seq<Bucket>, s: seq<Assessment>)
    requires forall x :: x in s ==> x.id !in ProcessedIds(n)
    ensures ProcessedIds(n + LonerBuckets(s)) == ProcessedIds(n)
  {
    if s == [] {
      assert n + [] == n;
    } else {
      var front, last := s[..|s| - 1], s[|s| - 1];
      forall x | x in front
        ensures x.id !in ProcessedIds(n)
      {
        assert x in s;
      }
      ProcessedAfterLoners(n, front);
      AfterLonersStep(n, s);
      if KeyOf(last).Some? {
        assert last in s;
        AppendLonerBucket(n + LonerBuckets(front), Bucket(KeyOf(last).value, [last]));
      }
    }
  }

  // ---------------------------------------------------------------------------
  // The third pass over the flattened list
  // ---------------------------------------------------------------------------

  lemma {:induction false} SinglesAppend(p: seq<Assessment>, q: seq<Assessment>, P: set<string>)
    ensures Singles(p + q, P) == Singles(p, P) + Singles(q, P)
    decreases |q|
  {
    if q == [] {
      assert p + q == p;
    } else {
      assert (p + q)[..|p + q| - 1] == p + q[..|q| - 1];
      SinglesAppend(p, q[..|q| - 1], P);
    }
  }

  lemma {:induction false} SinglesNone(s: seq<Assessment>, P: set<string>)
    requires forall x :: x in s ==> x.id in P
    ensures Singles(s, P) == []
  {
    if s != [] {
      SinglesNone(s[..|s| - 1], P);
    }
  }

  lemma {:induction false} SinglesAll(s: seq<Assessment>, P: set<string>)
    requires forall x :: x in s ==> x.id !in P
    ensures Singles(s, P) == s
  {
    if s != [] {
      SinglesAll(s[..|s| - 1], P);
      assert s == s[..|s| - 1] + [s[|s| - 1]];
    }
  }

  lemma {:induction false} SinglesMember(s: seq<Assessment>, P: set<string>, x: Assessment)
    requires x in Singles(s, P)
    ensures x in s && x.id !in P
  {
    var front := s[..|s| - 1];
    if x in Singles(front, P) {
      SinglesMember(front, P, x);
    }
  }

  lemma {:induction false} SinglesDistinct(s: seq<Assessment>, P: set<string>)
    requires DistinctIds(s)
    ensures DistinctIds(Singles(s, P))
  {
    if s != [] {
      var front, last := s[..|s| - 1], s[|s| - 1];
      assert DistinctIds(front) by {
        forall i, j | 0 <= i < j < |front|
          ensures front[i].id != front[j].id
        {
          assert front[i] == s[i] && front[j] == s[j];
        }
      }
      SinglesDistinct(front, P);
      var r0 := Singles(front, P);
      if last.id !in P {
        var r := r0 + [last];
        forall i, j | 0 <= i < j < |r|
          ensures r[i].id != r[j].id
        {
          if j == |r0| {
            assert r[i] == r0[i];
            SinglesMember(front, P, r0[i]);
            var p :| 0 <= p < |front| && front[p] == r0[i];
            assert s[p] == front[p];
          } else {
            assert r[i] == r0[i] && r[j] == r0[j];
          }
        }
      }
    }
  }

  // ---------------------------------------------------------------------------
  // Idempotence
  // ---------------------------------------------------------------------------

  /** Each group bucket holds every record with its key, and group keys are distinct. */
  lemma MultiBucketsFit(flat: seq<Assessment>, b: seq<Bucket>)
    requires BucketsOf(b, flat)
    ensures KeysDistinct(MultiBuckets(b))
    ensures forall j :: 0 <= j < |MultiBuckets(b)| ==>
              MultiBuckets(b)[j].items == WithKey(flat, MultiBuckets(b)[j].key) && |MultiBuckets(b)[j].items| > 1
  {
    MultiBucketsChar(b);
    var m := MultiBuckets(b);
    forall j | 0 <= j < |m|
      ensures m[j].items == WithKey(flat, m[j].key)
    {
      var i :| 0 <= i < |b| && m[j] == b[i];
    }
  }

  /** The group buckets, sorted, are runs whose keys two or more records share. */
  lemma SortedGroupsAreRuns(flat: seq<Assessment>, m: seq<Bucket>)
    requires KeysDistinct(m)
    requires forall j :: 0 <= j < |m| ==> m[j].items == WithKey(flat, m[j].key) && |m[j].items| > 1
    ensures AllMulti(m)
    ensures Runs(SortBuckets(m))
    ensures forall j :: 0 <= j < |SortBuckets(m)| ==> |WithKey(flat, SortBuckets(m)[j].key)| > 1
  {
    var n := SortBuckets(m);
    forall j, x | 0 <= j < |n| && x in n[j].items
      ensures KeyOf(x) == Some(n[j].key)
    {
      SortSameMembers(m[j].items, x);
      WithKeyIn(flat, m[j].key, x);
    }
    forall j | 0 <= j < |n|
      ensures n[j].items != []
    {
      SortSameMembers(m[j].items, m[j].items[0]);
    }
    assert KeysDistinct(n) by {
      forall i, j | 0 <= i < j < |n|
        ensures n[i].key != n[j].key
      {
        assert n[i].key == m[i].key && n[j].key == m[j].key;
      }
    }
  }

  /** Every single row is a record of the input that is shown on its own. */
  lemma SinglesAreInputLoners(flat: seq<Assessment>, b: seq<Bucket>, S: seq<Assessment>)
    requires DistinctIds(flat) && b == CollectBuckets(flat) && S == Singles(flat, MultiIds(b))
    ensures forall x :: x in S ==> x in flat && IsLoner(flat, x)
    ensures DistinctIds(S)
  {
    CollectBucketsChar(flat);
    SinglesDistinct(flat, MultiIds(b));
    forall x | x in S
      ensures x in flat && IsLoner(flat, x)
    {
      SinglesMember(flat, MultiIds(b), x);
      MarkedIffGrouped(flat, b, x);
    }
  }

  /** The single rows' keys are neither group keys nor shared among them. */
  lemma LonersFresh(flat: seq<Assessment>, S: seq<Assessment>, n: seq<Bucket>)
    requires DistinctIds(S) && forall x :: x in S ==> x in flat && IsLoner(flat, x)
    requires forall j :: 0 <= j < |n| ==> |WithKey(flat, n[j].key)| > 1
    ensures forall i :: 0 <= i < |S| && KeyOf(S[i]).Some? ==> !HasKey(n, KeyOf(S[i]).value)
    ensures forall i, j :: 0 <= i < j < |S| && KeyOf(S[i]).Some? ==> KeyOf(S[j]) != KeyOf(S[i])
  {
    forall i | 0 <= i < |S| && KeyOf(S[i]).Some?
      ensures !HasKey(n, KeyOf(S[i]).value)
    {
      assert S[i] in S;
    }
    forall i, j | 0 <= i < j < |S| && KeyOf(S[i]).Some?
      ensures KeyOf(S[j]) != KeyOf(S[i])
    {
      assert S[i] in S && S[j] in S;
      LonersApart(flat, S[i], S[j]);
    }
  }

  /** Two loners with the same key are the same record. */
  lemma LonersApart(flat: seq<Assessment>, x: Assessment, y: Assessment)
    requires x in flat && y in flat && IsLoner(flat, x) && KeyOf(x).Some?
    ensures KeyOf(x) == KeyOf(y) ==> x == y
  {
    if KeyOf(x) == KeyOf(y) {
      var k := KeyOf(x).value;
      WithKeyIn(flat, k, x);
      WithKeyIn(flat, k, y);
      var w := WithKey(flat, k);
      assert w[0] == x && w[0] == y;
    }
  }

  /** The records a display list shows: the sorted children of every group, then the
      single rows. */
  lemma FlattenedDisplay(flat: seq<Assessment>, b: seq<Bucket>, S: seq<Assessment>)
    requires b == CollectBuckets(flat) && S == Singles(flat, ProcessedIds(b))
    requires AllMulti(MultiBuckets(b))
    ensures Flatten(GroupAssessments(flat)) == Concat(SortBuckets(MultiBuckets(b))) + S
  {
    GroupItemsOfMulti(b);
    FlattenGroupsIsConcat(MultiBuckets(b));
    FlattenAppend(GroupItems(b), SinglesAsItems(S));
    FlattenSingles(S);
  }

  /** The first pass over the shown records: the sorted group buckets, then one bucket
      per loner with a key. */
  lemma RegroupedBuckets(flat: seq<Assessment>, b: seq<Bucket>, S: seq<Assessment>, n: seq<Bucket>)
    requires DistinctIds(flat) && b == CollectBuckets(flat) && S == Singles(flat, MultiIds(b))
    requires n == SortBuckets(MultiBuckets(b))
    ensures AllMulti(MultiBuckets(b))
    ensures CollectBuckets(Concat(n) + S) == n + LonerBuckets(S)
  {
    var m := MultiBuckets(b);
    CollectBucketsChar(flat);
    MultiBucketsFit(flat, b);
    SortedGroupsAreRuns(flat, m);
    CollectAppend(Concat(n), S);
    CollectConcat(n);
    SinglesAreInputLoners(flat, b, S);
    LonersFresh(flat, S, n);
    CollectLoners(n, S);
  }

  /** A child of a sorted group bucket is marked by the second pass. */
  lemma ChildMarked(b: seq<Bucket>, n: seq<Bucket>, x: Assessment)
    requires n == SortBuckets(MultiBuckets(b)) && x in Concat(n)
    ensures x.id in MultiIds(b)
  {
    var m := MultiBuckets(b);
    ConcatMember(n, x);
    var j :| 0 <= j < |n| && x in n[j].items;
    assert n[j].items == SortByNumber(m[j].items);
    SortSameMembers(m[j].items, x);
    MultiBucketsChar(b);
    var i :| 0 <= i < |b| && m[j] == b[i];
    assert |b[i].items| > 1 && x in b[i].items;
    MultiIdsMember(b, x.id);
  }

  /** Every shown child is marked by the second pass. */
  lemma ChildrenMarked(b: seq<Bucket>, n: seq<Bucket>)
    requires n == SortBuckets(MultiBuckets(b))
    ensures forall x :: x in Concat(n) ==> x.id in MultiIds(b)
  {
    forall x | x in Concat(n)
      ensures x.id in MultiIds(b)
    {
      ChildMarked(b, n, x);
    }
  }

  /** page.tsx:61-122: grouping the records a display list shows gives that display list
      again: the same groups with the same children in the same order, then the same
      single rows. */
  lemma GroupIdempotent(flat: seq<Assessment>)
    requires DistinctIds(flat)
    ensures GroupAssessments(Flatten(GroupAssessments(flat))) == GroupAssessments(flat)
  {
    var b := CollectBuckets(flat);
    var m := MultiBuckets(b);
    var n := SortBuckets(m);
    IdsApartOf(flat);
    ProcessedIdsChar(b);
    var P := ProcessedIds(b);
    var S := Singles(flat, P);
    var C := Concat(n);
    RegroupedBuckets(flat, b, S, n);
    FlattenedDisplay(flat, b, S);
    var F := Flatten(GroupAssessments(flat));
    var b2 := CollectBuckets(F);
    assert b2 == n + LonerBuckets(S);
    // The groups are the same.
    GroupItemsAfterLoners(n, S);
    GroupItemsSorted(m);
    GroupItemsOfMulti(b);
    assert GroupItems(b2) == GroupItems(b);
    // The marks are the same.
    MultiIdsSorted(m);
    ProcessedOfAllMulti(n);
    MultiIdsOfMulti(b);
    forall x | x in S
      ensures x.id !in ProcessedIds(n)
    {
      SinglesMember(flat, P, x);
    }
    ProcessedAfterLoners(n, S);
    assert ProcessedIds(b2) == P;
    // The single rows are the same.
    ChildrenMarked(b, n);
    SinglesAppend(C, S, P);
    SinglesNone(C, P);
    SinglesAll(S, P);
    assert Singles(F, P) == S;
  }
}
