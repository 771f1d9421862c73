/** Properties of rule 3 of the duplicate cleaner (scripts/clean-assessments.ts:206-261): which
    rows the stem groups delete, which they rename and to what, and that the two never meet. */
module StemProps {
  import opened Common
  import opened CleanText
  import opened CleanGroups
  import opened CleanGroupsProps
  import opened CleanPasses

  // ---------------------------------------------------------------------------
  // Groups
  // ---------------------------------------------------------------------------

  /** With distinct ids, two records with one id are one record. */
  lemma SameIdSame(s: seq<Assessment>, x: Assessment, y: Assessment)
    requires DistinctIds(s) && x in s && y in s && x.id == y.id
    ensures x == y
  {
    var i :| 0 <= i < |s| && s[i] == x;
    var j :| 0 <= j < |s| && s[j] == y;
    assert !(i < j) && !(j < i);
  }

  lemma {:induction false} DistinctKeysCount<K>(c: seq<Bucket<K>>)
    requires KeysDistinct(c)
    ensures forall x :: multiset(c)[x] <= 1
  {
    if c != [] {
      var front := c[..|c| - 1];
      var last := c[|c| - 1];
      assert c == front + [last];
      assert KeysDistinct(front);
      DistinctKeysCount(front);
      assert forall i :: 0 <= i < |front| ==> front[i].key != last.key;
      assert last !in front;
    }
  }

  lemma RepeatCount<K>(r: seq<Bucket<K>>, i: nat, j: nat)
    requires i < j < |r|
    ensures r[i] == r[j] ==> multiset(r)[r[i]] >= 2
  {
    assert r == r[..j] + [r[j]] + r[j + 1..];
    assert r[i] in r[..j];
  }

  /** Listing the groups in another order keeps their keys distinct. */
  lemma PermutedKeysDistinct<K>(c: seq<Bucket<K>>, r: seq<Bucket<K>>)
    requires KeysDistinct(c) && multiset(r) == multiset(c)
    ensures KeysDistinct(r)
  {
    DistinctKeysCount(c);
    forall i, j | 0 <= i < j < |r|
      ensures r[i].key != r[j].key
    {
      RepeatCount(r, i, j);
      assert r[i] != r[j];
      assert r[i] in multiset(c) && r[j] in multiset(c);
      var p :| 0 <= p < |c| && c[p] == r[i];
      var q :| 0 <= q < |c| && c[q] == r[j];
      assert p != q;
      if p < q {
        assert c[p].key != c[q].key;
      } else {
        assert c[q].key != c[p].key;
      }
    }
  }

  /** Groups filed by a string key, in `Object.values` order: each holds, in order, exactly
      the rows of its key, and no two share a key. */
  lemma KeyedGroupsSpec(valid: seq<Assessment>, key: Assessment -> Option<string>)
    ensures KeysDistinct(ObjectOrder(Collect(valid, key), BucketKey))
    ensures forall g :: g in ObjectOrder(Collect(valid, key), BucketKey) ==>
      g.items != [] && g.items == WithKey(valid, key, g.key) && forall a :: a in g.items <==> a in valid && key(a) == Some(g.key)
  {
    var c := Collect(valid, key);
    var r := ObjectOrder(c, BucketKey);
    CollectSpec(valid, key);
    PermutedKeysDistinct(c, r);
    forall g | g in r
      ensures g.items != [] && g.items == WithKey(valid, key, g.key) && forall a :: a in g.items <==> a in valid && key(a) == Some(g.key)
    {
      assert g in multiset(c);
      WithKeyMembers(valid, key, g.key);
    }
  }

  /** The groups of lines 208-214. */
  lemma StemGroupsSpec(valid: seq<Assessment>)
    ensures KeysDistinct(StemGroups(valid))
    ensures forall g :: g in StemGroups(valid) ==>
      g.items != [] && forall a :: a in g.items <==> a in valid && StemKey(a) == Some(g.key)
  {
    KeyedGroupsSpec(valid, StemKey);
  }

  /** The group of a key some row has. */
  lemma KeyedGroupOf(valid: seq<Assessment>, key: Assessment -> Option<string>, a: Assessment) returns (h: nat)
    requires a in valid && key(a).Some?
    ensures var groups := ObjectOrder(Collect(valid, key), BucketKey);
      h < |groups| && groups[h].key == key(a).value && groups[h].items == WithKey(valid, key, key(a).value)
  {
    var i := GroupOf(valid, key, key(a).value);
    var c := Collect(valid, key);
    assert c[i] in multiset(ObjectOrder(c, BucketKey));
    h :| 0 <= h < |ObjectOrder(c, BucketKey)| && ObjectOrder(c, BucketKey)[h] == c[i];
  }

  /** The group of a row with a stem. */
  lemma StemGroupOf(valid: seq<Assessment>, a: Assessment) returns (h: nat)
    requires a in valid && StemKey(a).Some?
    ensures h < |StemGroups(valid)| && StemGroups(valid)[h].key == StemKey(a).value
    ensures StemGroups(valid)[h].items == WithKey(valid, StemKey, StemKey(a).value)
  {
    h := KeyedGroupOf(valid, StemKey, a);
  }

  // ---------------------------------------------------------------------------
  // Rule 3a: deletions
  // ---------------------------------------------------------------------------

  /** The generic rows rule 3a deletes from one group. */
  function Doomed(g: seq<Assessment>): set<string> {
    if |g| > 1 && |Specifics(g)| > 0 && |Generics(g)| > 0 then Ids(Generics(g)) else {}
  }

  function GenericIds(groups: seq<Bucket<string>>): set<string> {
    if groups == [] then {}
    else GenericIds(groups[..|groups| - 1]) + Doomed(groups[|groups| - 1].items)
  }

  lemma GroupStepDeletes(g: seq<Assessment>, td: set<string>, renames: map<string, string>)
    ensures GroupStep(g, td, renames).0 == td + Doomed(g)
    ensures Doomed(g) <= Ids(g)
  {
  }

  /** The deletions do not depend on the renames. */
  lemma {:induction false} StemFoldDeletes(groups: seq<Bucket<string>>, td: set<string>, renames: map<string, string>)
    ensures StemFold(groups, td, renames).0 == td + GenericIds(groups)
  {
    if groups != [] {
      StemFoldDeletes(groups[..|groups| - 1], td, renames);
      var (t, r) := StemFold(groups[..|groups| - 1], td, renames);
      GroupStepDeletes(groups[|groups| - 1].items, t, r);
    }
  }

  lemma {:induction false} GenericIdsFrom(groups: seq<Bucket<string>>, x: string)
    ensures x in GenericIds(groups) ==> exists i :: 0 <= i < |groups| && x in Doomed(groups[i].items)
    ensures forall i :: 0 <= i < |groups| && x in Doomed(groups[i].items) ==> x in GenericIds(groups)
  {
    if groups != [] {
      var front := groups[..|groups| - 1];
      GenericIdsFrom(front, x);
      forall i | 0 <= i < |groups| && x in Doomed(groups[i].items)
        ensures x in GenericIds(groups)
      {
        if i < |front| {
          assert front[i] == groups[i];
        }
      }
      if x in GenericIds(front) {
        var i :| 0 <= i < |front| && x in Doomed(front[i].items);
        assert groups[i] == front[i];
      }
    }
  }

  lemma TwoMembers(g: seq<Assessment>, a: Assessment, b: Assessment)
    ensures a in g && b in g && a != b ==> |g| > 1
  {
    if |g| == 1 {
      assert forall x :: x in g ==> x == g[0];
    }
  }

  lemma DoomedMember(g: seq<Assessment>, a: Assessment, b: Assessment)
    requires a in g && b in g && !IsSpecific(a.name) && IsSpecific(b.name)
    ensures a.id in Doomed(g)
  {
    TwoMembers(g, a, b);
    assert a in Generics(g) && b in Specifics(g);
  }

  lemma DoomedFrom(g: seq<Assessment>, x: string)
    ensures x in Doomed(g) ==> exists y, b :: y in g && b in g && y.id == x && !IsSpecific(y.name) && IsSpecific(b.name)
  {
    if x in Doomed(g) {
      var y :| y in Generics(g) && y.id == x;
      var b := Specifics(g)[0];
      assert b in Specifics(g);
    }
  }

  /** A generic row: its name does not end in a number, and some numbered row has its
      stem. */
  ghost predicate GenericWithSpecific(valid: seq<Assessment>, a: Assessment) {
    !IsSpecific(a.name) && StemKey(a).Some? &&
    exists b :: b in valid && IsSpecific(b.name) && StemKey(b) == StemKey(a)
  }

  ghost predicate DeletedGeneric(valid: seq<Assessment>, x: string) {
    exists a :: a in valid && a.id == x && GenericWithSpecific(valid, a)
  }

  /** Rule 3a deletes every generic row that shares its stem with a numbered row. */
  lemma StemDeletesGenerics(assessments: seq<Assessment>, td: set<string>, a: Assessment)
    requires var valid := Remaining(assessments, td); a in valid && GenericWithSpecific(valid, a)
    ensures a.id in StemSpec(assessments, td).0
  {
    var valid := Remaining(assessments, td);
    var groups := StemGroups(valid);
    var b :| b in valid && IsSpecific(b.name) && StemKey(b) == StemKey(a);
    var h := StemGroupOf(valid, a);
    StemGroupsSpec(valid);
    assert groups[h] in groups;
    DoomedMember(groups[h].items, a, b);
    GenericIdsFrom(groups, a.id);
    StemFoldDeletes(groups, td, map[]);
  }

  /** Rule 3a deletes nothing else. */
  lemma StemDeletesOnlyGenerics(assessments: seq<Assessment>, td: set<string>, x: string)
    ensures var valid := Remaining(assessments, td);
      td <= StemSpec(assessments, td).0 &&
      (x in StemSpec(assessments, td).0 ==> x in td || DeletedGeneric(valid, x))
  {
    var valid := Remaining(assessments, td);
    var groups := StemGroups(valid);
    var del := StemSpec(assessments, td).0;
    StemFoldDeletes(groups, td, map[]);
    assert del == td + GenericIds(groups);
    GenericIdsFrom(groups, x);
    if x in GenericIds(groups) {
      var i :| 0 <= i < |groups| && x in Doomed(groups[i].items);
      var g := groups[i];
      StemGroupsSpec(valid);
      assert g in groups;
      DoomedFrom(g.items, x);
      var y, b :| y in g.items && b in g.items && y.id == x && !IsSpecific(y.name) && IsSpecific(b.name);
      assert y in valid && GenericWithSpecific(valid, y);
      assert DeletedGeneric(valid, x);
    }
  }

  // ---------------------------------------------------------------------------
  // Rule 3b: prefix counts and the dominant prefix
  // ---------------------------------------------------------------------------

  /** The number of rows whose name is `p`, spaces, then a number. */
  function PrefixCountOf(specifics: seq<Assessment>, p: string): nat {
    if specifics == [] then 0
    else
      var here := match NumberParts(specifics[|specifics| - 1].name)
        case Some((q, _)) => if q == p then 1 else 0
        case None => 0;
      PrefixCountOf(specifics[..|specifics| - 1], p) + here
  }

  /** `counts` holds the non-empty prefixes of `specifics`, each once, with its number of
      rows. */
  ghost predicate Tally(counts: seq<PrefixCount>, specifics: seq<Assessment>) {
    && (forall i :: 0 <= i < |counts| ==> counts[i].prefix != "" && counts[i].count == PrefixCountOf(specifics, counts[i].prefix))
    && (forall i, j :: 0 <= i < j < |counts| ==> counts[i].prefix != counts[j].prefix)
    && (forall p :: p != "" && PrefixCountOf(specifics, p) > 0 ==> exists i :: 0 <= i < |counts| && counts[i].prefix == p)
  }

  lemma BumpStep(counts: seq<PrefixCount>, specifics: seq<Assessment>, a: Assessment, p: string, num: string)
    requires Tally(counts, specifics)
    requires NumberParts(a.name) == Some((p, num)) && p != ""
    ensures Tally(Bump(counts, p), specifics + [a])
  {
    var sp := specifics + [a];
    assert sp[..|sp| - 1] == specifics;
    assert forall q :: PrefixCountOf(sp, q) == PrefixCountOf(specifics, q) + (if q == p then 1 else 0);
    var b := Bump(counts, p);
    match FindPrefix(counts, p)
    case Some(k) =>
      assert b == counts[k := PrefixCount(p, counts[k].count + 1)];
      forall i | 0 <= i < |b|
        ensures b[i].prefix != "" && b[i].count == PrefixCountOf(sp, b[i].prefix)
      {
        if i != k {
          assert counts[i].prefix != p by {
            if i < k {
              assert counts[i].prefix != counts[k].prefix;
            } else {
              assert counts[k].prefix != counts[i].prefix;
            }
          }
        }
      }
      forall q | q != "" && PrefixCountOf(sp, q) > 0
        ensures exists i :: 0 <= i < |b| && b[i].prefix == q
      {
        if q == p {
          assert b[k].prefix == q;
        } else {
          var i :| 0 <= i < |counts| && counts[i].prefix == q;
          assert b[i].prefix == q;
        }
      }
    case None =>
      assert b == counts + [PrefixCount(p, 1)];
      assert PrefixCountOf(specifics, p) == 0;
      forall q | q != "" && PrefixCountOf(sp, q) > 0
        ensures exists i :: 0 <= i < |b| && b[i].prefix == q
      {
        if q == p {
          assert b[|counts|].prefix == q;
        } else {
          var i :| 0 <= i < |counts| && counts[i].prefix == q;
          assert b[i].prefix == q;
        }
      }
  }

  lemma SkipStep(counts: seq<PrefixCount>, specifics: seq<Assessment>, a: Assessment)
    requires Tally(counts, specifics)
    requires NumberParts(a.name).None? || NumberParts(a.name).value.0 == ""
    ensures Tally(counts, specifics + [a])
  {
    var sp := specifics + [a];
    assert sp[..|sp| - 1] == specifics;
    assert forall q :: q != "" ==> PrefixCountOf(sp, q) == PrefixCountOf(specifics, q);
  }

  /** The loop of lines 235-241 counts every non-empty prefix once, correctly. */
  lemma {:induction false} CountPrefixesSpec(specifics: seq<Assessment>)
    ensures Tally(CountPrefixes(specifics), specifics)
  {
    if specifics != [] {
      var front := specifics[..|specifics| - 1];
      var a := specifics[|specifics| - 1];
      CountPrefixesSpec(front);
      assert specifics == front + [a];
      match NumberParts(a.name)
      case Some((p, num)) =>
        if p != "" {
          BumpStep(CountPrefixes(front), front, a, p, num);
        } else {
          SkipStep(CountPrefixes(front), front, a);
        }
      case None =>
        SkipStep(CountPrefixes(front), front, a);
    }
  }

  /** `FirstMax` finds the first of the largest counts. */
  lemma {:induction false} FirstMaxSpec(entries: seq<PrefixCount>)
    requires entries != []
    ensures forall j :: 0 <= j < |entries| ==> entries[j].count <= entries[FirstMax(entries)].count
    ensures forall j :: 0 <= j < FirstMax(entries) ==> entries[j].count < entries[FirstMax(entries)].count
  {
    if |entries| > 1 {
      var front := entries[..|entries| - 1];
      FirstMaxSpec(front);
      assert forall j :: 0 <= j < |front| ==> entries[j] == front[j];
    }
  }

  /** Where an element of one listing sits in another listing of the same elements. */
  lemma PermutedIndex<T>(a: seq<T>, b: seq<T>, i: nat) returns (j: nat)
    requires multiset(a) == multiset(b) && i < |a|
    ensures j < |b| && b[j] == a[i]
  {
    assert a[i] in multiset(b);
    j :| 0 <= j < |b| && b[j] == a[i];
  }

  /** `sortedPrefixes[0]` is an entry with the largest count. */
  lemma DominantLargest(counts: seq<PrefixCount>) returns (k: nat)
    requires counts != []
    ensures k < |counts| && counts[k].prefix == Dominant(counts)
    ensures forall i :: 0 <= i < |counts| ==> counts[i].count <= counts[k].count
  {
    var e := ObjectOrder(counts, PrefixKey);
    FirstMaxSpec(e);
    var r := FirstMax(e);
    k := PermutedIndex(e, counts, r);
    forall i | 0 <= i < |counts|
      ensures counts[i].count <= counts[k].count
    {
      var j := PermutedIndex(counts, e, i);
      assert e[j].count <= e[r].count;
    }
  }

  /** The dominant prefix is one that the most numbered rows of the group share. */
  lemma DominantMostCommon(specifics: seq<Assessment>, q: string)
    requires CountPrefixes(specifics) != []
    ensures var d := Dominant(CountPrefixes(specifics));
      d != "" && PrefixCountOf(specifics, d) > 0 &&
      (q != "" ==> PrefixCountOf(specifics, q) <= PrefixCountOf(specifics, d))
  {
    var counts := CountPrefixes(specifics);
    CountPrefixesSpec(specifics);
    var k := DominantLargest(counts);
    CountPositive(specifics, counts, k);
    if q != "" && PrefixCountOf(specifics, q) > 0 {
      var i :| 0 <= i < |counts| && counts[i].prefix == q;
      assert counts[i].count <= counts[k].count;
    }
  }

  /** Every tallied prefix has at least one row. */
  lemma CountPositive(specifics: seq<Assessment>, counts: seq<PrefixCount>, k: nat)
    requires counts == CountPrefixes(specifics) && k < |counts|
    ensures counts[k].count > 0
  {
    CountsPositive(specifics);
  }

  lemma {:induction false} CountsPositive(specifics: seq<Assessment>)
    ensures forall i :: 0 <= i < |CountPrefixes(specifics)| ==> CountPrefixes(specifics)[i].count > 0
  {
    if specifics != [] {
      var front := specifics[..|specifics| - 1];
      CountsPositive(front);
    }
  }

  // ---------------------------------------------------------------------------
  // Rule 3b: renames
  // ---------------------------------------------------------------------------

  /** A numbered row the loop of lines 246-258 renames for `dominant`. */
  predicate RenamedRow(s: Assessment, td: set<string>, dominant: string) {
    s.id !in td && NumberParts(s.name).Some? && NumberParts(s.name).value.0 != dominant
  }

  lemma {:induction false} RenamedKeys(specifics: seq<Assessment>, td: set<string>, dominant: string, renames: map<string, string>, k: string)
    ensures k in Renamed(specifics, td, dominant, renames) ==>
      k in renames || exists s :: s in specifics && s.id == k && RenamedRow(s, td, dominant)
  {
    if specifics != [] {
      var front := specifics[..|specifics| - 1];
      RenamedKeys(front, td, dominant, renames, k);
      assert specifics == front + [specifics[|specifics| - 1]];
    }
  }

  lemma {:induction false} RenamedOutside(specifics: seq<Assessment>, td: set<string>, dominant: string, renames: map<string, string>, k: string)
    requires forall s :: s in specifics ==> s.id != k
    ensures var r := Renamed(specifics, td, dominant, renames);
      (k in r <==> k in renames) && (k in renames ==> r[k] == renames[k])
  {
    if specifics != [] {
      var front := specifics[..|specifics| - 1];
      assert specifics == front + [specifics[|specifics| - 1]];
      RenamedOutside(front, td, dominant, renames, k);
    }
  }

  /** The loop renames a numbered row whose prefix is not the dominant one to the dominant
      prefix and its number, and leaves the others alone. */
  lemma {:induction false} RenamedAt(specifics: seq<Assessment>, td: set<string>, dominant: string, renames: map<string, string>,
                                     s: Assessment, p: string, num: string)
    requires s in specifics && NumberParts(s.name) == Some((p, num))
    requires forall t :: t in specifics && t.id == s.id ==> t == s
    ensures var r := Renamed(specifics, td, dominant, renames);
      (s.id !in td && p != dominant ==> s.id in r && r[s.id] == dominant + " " + num) &&
      (s.id !in renames && (s.id in td || p == dominant) ==> s.id !in r)
  {
    var front := specifics[..|specifics| - 1];
    var last := specifics[|specifics| - 1];
    assert specifics == front + [last];
    var before := Renamed(front, td, dominant, renames);
    if s in front {
      RenamedAt(front, td, dominant, renames, s, p, num);
    } else {
      RenamedOutside(front, td, dominant, renames, s.id);
    }
    if last == s {
      RenameStepSelf(s, td, dominant, before, p, num);
    } else {
      RenameStepOther(last, td, dominant, before, s.id);
    }
  }

  lemma RenameStepOther(t: Assessment, td: set<string>, dominant: string, renames: map<string, string>, k: string)
    requires t.id != k
    ensures Agree(RenameStep(t, td, dominant, renames), renames, k)
  {
  }

  lemma RenameStepSelf(s: Assessment, td: set<string>, dominant: string, renames: map<string, string>, p: string, num: string)
    requires NumberParts(s.name) == Some((p, num))
    ensures var r := RenameStep(s, td, dominant, renames);
      (s.id !in td && p != dominant ==> s.id in r && r[s.id] == dominant + " " + num) &&
      (s.id in td || p == dominant ==> Agree(r, renames, s.id))
  {
  }

  lemma GroupOutside(g: seq<Assessment>, td: set<string>, renames: map<string, string>, k: string)
    requires forall a :: a in g ==> a.id != k
    ensures var r := GroupStep(g, td, renames).1;
      (k in r <==> k in renames) && (k in renames ==> r[k] == renames[k])
  {
    if |g| > 1 && |Specifics(g)| > 1 && |CountPrefixes(Specifics(g))| > 1 {
      var td' := GroupStep(g, td, renames).0;
      RenamedOutside(Specifics(g), td', Dominant(CountPrefixes(Specifics(g))), renames, k);
    }
  }

  lemma GroupKeys(g: seq<Assessment>, td: set<string>, renames: map<string, string>, k: string)
    ensures k in GroupStep(g, td, renames).1 ==> k in renames || exists s :: s in g && s.id == k && IsSpecific(s.name)
  {
    if |g| > 1 && |Specifics(g)| > 1 && |CountPrefixes(Specifics(g))| > 1 {
      var td' := GroupStep(g, td, renames).0;
      RenamedKeys(Specifics(g), td', Dominant(CountPrefixes(Specifics(g))), renames, k);
    }
  }

  /** What rule 3b does to a numbered row of group `g` with prefix `p` and number `num`:
      with two numbered rows or more and two prefixes or more, a prefix other than the
      dominant one is replaced by it. */
  function ExpectedRename(g: seq<Assessment>, p: string, num: string): Option<string> {
    var specifics := Specifics(g);
    var counts := CountPrefixes(specifics);
    if |specifics| > 1 && |counts| > 1 && p != Dominant(counts) then Some(Dominant(counts) + " " + num) else None
  }

  lemma GroupAt(g: seq<Assessment>, td: set<string>, renames: map<string, string>, s: Assessment, p: string, num: string)
    requires s in g && IsSpecific(s.name) && NumberParts(s.name) == Some((p, num))
    requires forall t :: t in g && t.id == s.id ==> t == s
    requires s.id !in td && s.id !in renames
    ensures var r := GroupStep(g, td, renames).1;
      match ExpectedRename(g, p, num)
      case Some(n) => s.id in r && r[s.id] == n
      case None => s.id !in r
  {
    var specifics := Specifics(g);
    if |g| > 1 {
      var td' := GroupStep(g, td, renames).0;
      assert forall y :: y in Generics(g) ==> y.id != s.id;
      assert s.id !in td';
      if |specifics| > 1 {
        var counts := CountPrefixes(specifics);
        if |counts| > 1 {
          RenamedAt(specifics, td', Dominant(counts), renames, s, p, num);
        }
      }
    }
  }

  // ---------------------------------------------------------------------------
  // Rule 3b over all groups
  // ---------------------------------------------------------------------------

  /** Groups that do not hold a row leave its deletion and rename alone. */
  lemma {:induction false} FoldBefore(groups: seq<Bucket<string>>, td: set<string>, k: string, m: nat)
    requires m <= |groups| && k !in td
    requires forall i, a :: 0 <= i < m && a in groups[i].items ==> a.id != k
    ensures k !in StemFold(groups[..m], td, map[]).0 && k !in StemFold(groups[..m], td, map[]).1
  {
    if m == 0 {
      assert groups[..0] == [];
    } else {
      FoldBefore(groups, td, k, m - 1);
      StemFoldStep(groups, m - 1, td);
      var (t, r) := StemFold(groups[..m - 1], td, map[]);
      GroupStepDeletes(groups[m - 1].items, t, r);
      GroupOutside(groups[m - 1].items, t, r, k);
    }
  }

  /** `r` and `r0` say the same about key `k`. */
  predicate Agree(r: map<string, string>, r0: map<string, string>, k: string) {
    (k in r <==> k in r0) && (k in r0 ==> r[k] == r0[k])
  }

  lemma AgreeTrans(a: map<string, string>, b: map<string, string>, c: map<string, string>, k: string)
    requires Agree(a, b, k) && Agree(b, c, k)
    ensures Agree(a, c, k)
  {
  }

  lemma FoldOutsideStep(groups: seq<Bucket<string>>, td: set<string>, k: string, m: nat)
    requires m < |groups|
    requires forall a :: a in groups[m].items ==> a.id != k
    ensures Agree(StemFold(groups[..m + 1], td, map[]).1, StemFold(groups[..m], td, map[]).1, k)
  {
    StemFoldStep(groups, m, td);
    var (t, r) := StemFold(groups[..m], td, map[]);
    GroupOutside(groups[m].items, t, r, k);
  }

  lemma {:induction false} FoldAfter(groups: seq<Bucket<string>>, td: set<string>, k: string, h: nat, m: nat)
    requires h < m <= |groups|
    requires forall i, a :: h < i < |groups| && a in groups[i].items ==> a.id != k
    ensures Agree(StemFold(groups[..m], td, map[]).1, StemFold(groups[..h + 1], td, map[]).1, k)
  {
    if m > h + 1 {
      FoldAfter(groups, td, k, h, m - 1);
      FoldOutsideStep(groups, td, k, m - 1);
      AgreeTrans(StemFold(groups[..m], td, map[]).1, StemFold(groups[..m - 1], td, map[]).1, StemFold(groups[..h + 1], td, map[]).1, k);
    }
  }

  /** Only rows of the groups are renamed, and only numbered ones. */
  lemma {:induction false} FoldKeys(groups: seq<Bucket<string>>, td: set<string>, k: string, m: nat)
    requires m <= |groups|
    ensures k in StemFold(groups[..m], td, map[]).1 ==>
      exists i, s :: 0 <= i < m && s in groups[i].items && s.id == k && IsSpecific(s.name)
  {
    if m == 0 {
      assert groups[..0] == [];
    } else {
      FoldKeys(groups, td, k, m - 1);
      StemFoldStep(groups, m - 1, td);
      var (t, r) := StemFold(groups[..m - 1], td, map[]);
      GroupKeys(groups[m - 1].items, t, r, k);
    }
  }

  /** Rows of other groups have other ids. */
  lemma OtherGroups(valid: seq<Assessment>, s: Assessment, h: nat)
    requires DistinctIds(valid) && s in valid
    requires h < |StemGroups(valid)| && Some(StemGroups(valid)[h].key) == StemKey(s)
    ensures var groups := StemGroups(valid);
      forall i, a :: 0 <= i < |groups| && i != h && a in groups[i].items ==> a.id != s.id
  {
    var groups := StemGroups(valid);
    StemGroupsSpec(valid);
    forall i, a | 0 <= i < |groups| && i != h && a in groups[i].items
      ensures a.id != s.id
    {
      assert groups[i] in groups;
      if i < h {
        assert groups[i].key != groups[h].key;
      } else {
        assert groups[h].key != groups[i].key;
      }
      assert a in valid && StemKey(a) != StemKey(s);
      DifferentIds(valid, a, s);
    }
  }

  /** Rule 3b, end to end: a numbered row with prefix `p` and number `num` is renamed
      exactly when its stem group says so, and to the dominant prefix and its number. */
  lemma StemRenameRule(assessments: seq<Assessment>, td: set<string>, s: Assessment, p: string, num: string)
    requires DistinctIds(assessments)
    requires s in Remaining(assessments, td) && StemKey(s).Some?
    requires IsSpecific(s.name) && NumberParts(s.name) == Some((p, num))
    ensures var r := StemSpec(assessments, td).1;
      match ExpectedRename(WithKey(Remaining(assessments, td), StemKey, StemKey(s).value), p, num)
      case Some(n) => s.id in r && r[s.id] == n
      case None => s.id !in r
  {
    var valid := Remaining(assessments, td);
    RemainingDistinct(assessments, td);
    var groups := StemGroups(valid);
    var h := StemGroupOf(valid, s);
    OtherGroups(valid, s, h);
    forall y | y in groups[h].items && y.id == s.id
      ensures y == s
    {
      StemGroupsSpec(valid);
      assert groups[h] in groups;
      SameIdSame(valid, y, s);
    }
    assert s.id !in td;
    assert s in groups[h].items by {
      StemGroupsSpec(valid);
      assert groups[h] in groups;
    }
    StemRenameAt(groups, td, h, s, p, num);
  }

  /** The rename rule for a numbered row of group `h`, whose id no other group holds. */
  lemma StemRenameAt(groups: seq<Bucket<string>>, td: set<string>, h: nat, s: Assessment, p: string, num: string)
    requires h < |groups| && s in groups[h].items && s.id !in td
    requires IsSpecific(s.name) && NumberParts(s.name) == Some((p, num))
    requires forall i, a :: 0 <= i < |groups| && i != h && a in groups[i].items ==> a.id != s.id
    requires forall y :: y in groups[h].items && y.id == s.id ==> y == s
    ensures var r := StemFold(groups, td, map[]).1;
      match ExpectedRename(groups[h].items, p, num)
      case Some(n) => s.id in r && r[s.id] == n
      case None => s.id !in r
  {
    FoldBefore(groups, td, s.id, h);
    StemFoldStep(groups, h, td);
    var (t, r) := StemFold(groups[..h], td, map[]);
    GroupAt(groups[h].items, t, r, s, p, num);
    FoldAfter(groups, td, s.id, h, |groups|);
    assert groups[..|groups|] == groups;
  }

  /** Rule 3 never renames a row it deletes. */
  lemma RenamedNeverDeleted(assessments: seq<Assessment>, td: set<string>, k: string)
    requires DistinctIds(assessments)
    ensures k in StemSpec(assessments, td).1 ==> k !in StemSpec(assessments, td).0
  {
    if k in StemSpec(assessments, td).1 {
      var valid := Remaining(assessments, td);
      var s := RenamedIsNumbered(assessments, td, k);
      StemDeletesOnlyGenerics(assessments, td, k);
      RemainingDistinct(assessments, td);
      assert !DeletedGeneric(valid, k) by {
        forall a | a in valid && a.id == k
          ensures !GenericWithSpecific(valid, a)
        {
          SameIdSame(valid, a, s);
        }
      }
    }
  }

  /** A renamed id belongs to a remaining numbered row. */
  lemma RenamedIsNumbered(assessments: seq<Assessment>, td: set<string>, k: string) returns (s: Assessment)
    requires k in StemSpec(assessments, td).1
    ensures s in Remaining(assessments, td) && s.id == k && IsSpecific(s.name)
  {
    var valid := Remaining(assessments, td);
    var groups := StemGroups(valid);
    FoldKeys(groups, td, k, |groups|);
    assert groups[..|groups|] == groups;
    var i, s' :| 0 <= i < |groups| && s' in groups[i].items && s'.id == k && IsSpecific(s'.name);
    StemGroupsSpec(valid);
    assert groups[i] in groups;
    s := s';
  }
}
