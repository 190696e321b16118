/** Conservation between clusters and the corpus summary: every affected position is in exactly one
    cluster, and cluster capital adds up to affected capital (engine/src/cluster.rs:440-547,
    engine/src/impact.rs:240-293). */
module ClusterTotals {
  import opened Prelude
  import opened Types
  import opened Order
  import opened Diff
  import opened Impact
  import opened Totals
  import I = Interpret
  import opened Cluster
  import opened ClusterProperties
  import opened ClusterFacts
  import M = Money

  // ---- totals over a list -----------------------------------------------------------------------------

  function Total<T>(f: T -> nat, s: seq<T>): nat {
    if s == [] then 0 else f(s[0]) + Total(f, s[1..])
  }

  lemma {:induction false} TotalAppend<T>(f: T -> nat, a: seq<T>, b: seq<T>)
    ensures Total(f, a + b) == Total(f, a) + Total(f, b)
  {
    if a == [] {
      assert a + b == b;
    } else {
      assert a + b == [a[0]] + (a[1..] + b);
      TotalAppend(f, a[1..], b);
    }
  }

  lemma TotalPush<T>(f: T -> nat, s: seq<T>, x: T)
    ensures Total(f, s + [x]) == Total(f, s) + f(x)
  {
    TotalAppend(f, s, [x]);
  }

  lemma {:induction false} TotalInsert<T>(f: T -> nat, cmp: (T, T) -> int, x: T, s: seq<T>)
    ensures Total(f, Insert(cmp, x, s)) == f(x) + Total(f, s)
  {
    if s != [] && cmp(x, s[0]) > 0 {
      TotalInsert(f, cmp, x, s[1..]);
    }
  }

  lemma {:induction false} TotalSort<T>(f: T -> nat, cmp: (T, T) -> int, s: seq<T>)
    ensures Total(f, Sort(cmp, s)) == Total(f, s)
  {
    if s != [] {
      TotalSort(f, cmp, s[1..]);
      TotalInsert(f, cmp, s[0], Sort(cmp, s[1..]));
    }
  }

  // ---- totals over groups --------------------------------------------------------------------------------

  function GroupTotal(f: Member -> nat, ms: seq<Member>, keys: seq<ClusterKey>): nat {
    if keys == [] then 0 else Total(f, Group(ms, keys[0])) + GroupTotal(f, ms, keys[1..])
  }

  lemma GroupGrows(f: Member -> nat, ms: seq<Member>, m: Member, key: ClusterKey)
    ensures Total(f, Group(ms + [m], key)) == Total(f, Group(ms, key)) + (if m.Key() == key then f(m) else 0)
  {
    assert (ms + [m])[..|ms|] == ms;
    TotalPush(f, Group(ms, key), m);
    assert Group(ms, key) + [] == Group(ms, key);
    hide Member.Key, Total;
  }

  ghost predicate NoRepeats<T(!new)>(s: seq<T>) {
    forall i, j :: 0 <= i < j < |s| ==> s[i] != s[j]
  }

  lemma NoRepeatsTail<T(!new)>(s: seq<T>)
    requires s != [] && NoRepeats(s)
    ensures NoRepeats(s[1..]) && s[0] !in s[1..]
  {
  }

  lemma {:induction false} GroupTotalGrows(f: Member -> nat, ms: seq<Member>, m: Member, keys: seq<ClusterKey>)
    requires NoRepeats(keys)
    ensures GroupTotal(f, ms + [m], keys) == GroupTotal(f, ms, keys) + (if m.Key() in keys then f(m) else 0)
  {
    if keys != [] {
      NoRepeatsTail(keys);
      GroupTotalGrows(f, ms, m, keys[1..]);
      GroupGrows(f, ms, m, keys[0]);
      assert m.Key() in keys <==> m.Key() == keys[0] || m.Key() in keys[1..];
      hide Member.Key, Total, Group, NoRepeats;
    }
  }

  lemma {:induction false} EmptyGroups(f: Member -> nat, keys: seq<ClusterKey>)
    ensures GroupTotal(f, [], keys) == 0
  {
    if keys != [] { EmptyGroups(f, keys[1..]); }
  }

  /** Grouping conserves any additive quantity, whatever is counted. */
  lemma {:induction false} GroupsConserve(f: Member -> nat, ms: seq<Member>, keys: seq<ClusterKey>)
    requires NoRepeats(keys) && forall m :: m in ms ==> m.Key() in keys
    ensures GroupTotal(f, ms, keys) == Total(f, ms)
  {
    hide Member.Key, Group, GroupTotal, NoRepeats;
    if ms == [] {
      EmptyGroups(f, keys);
    } else {
      var init, last := ms[..|ms| - 1], ms[|ms| - 1];
      assert ms == init + [last] && last in ms;
      GroupsConserve(f, init, keys);
      GroupTotalGrows(f, init, last, keys);
      TotalPush(f, init, last);
      hide *;
    }
  }

  /** `g` reads off a cluster what `f` adds up over its members, up to a ceiling. */
  ghost predicate Reads(f: Member -> nat, g: RegressionCluster -> nat, limit: nat, ms: seq<Member>) {
    forall i :: 0 <= i < |Unsorted(ms)| ==> ReadsAt(f, g, limit, ms, i)
  }

  ghost predicate ReadsAt(f: Member -> nat, g: RegressionCluster -> nat, limit: nat, ms: seq<Member>, i: nat)
    requires i < |Unsorted(ms)|
  {
    UnsortedIds(ms, i);
    g(Unsorted(ms)[i]) == Min(Total(f, SortedGroup(ms, SortedKeys(KeysOf(ms))[i])), limit)
  }

  lemma MinAdds(a: nat, b: nat, x: nat, y: nat, limit: nat)
    requires a == Min(x, limit) && Min(b, limit) == Min(y, limit)
    ensures Min(a + b, limit) == Min(x + y, limit)
  {
  }

  lemma OneClusterReads(f: Member -> nat, g: RegressionCluster -> nat, limit: nat, ms: seq<Member>, n: nat)
    requires n < |Unsorted(ms)| && Reads(f, g, limit, ms)
    ensures n < |SortedKeys(KeysOf(ms))|
    ensures g(Unsorted(ms)[n]) == Min(Total(f, Group(ms, SortedKeys(KeysOf(ms))[n])), limit)
  {
    UnsortedIds(ms, n);
    assert ReadsAt(f, g, limit, ms, n);
    TotalSort(f, IdOrder(), Group(ms, SortedKeys(KeysOf(ms))[n]));
    hide Unsorted, SortedKeys, KeysOf, Sort, IdOrder, Group, Total;
  }

  lemma UnsortedLength(ms: seq<Member>)
    ensures |Unsorted(ms)| == |SortedKeys(KeysOf(ms))|
  {
  }

  lemma {:induction false} ListTotal(f: Member -> nat, g: RegressionCluster -> nat, limit: nat, ms: seq<Member>, n: nat)
    requires n <= |Unsorted(ms)| && Reads(f, g, limit, ms)
    ensures |Unsorted(ms)| == |SortedKeys(KeysOf(ms))|
    ensures Min(Total(g, Unsorted(ms)[n..]), limit) == Min(GroupTotal(f, ms, SortedKeys(KeysOf(ms))[n..]), limit)
    decreases |Unsorted(ms)| - n
  {
    hide Unsorted, SortedKeys, KeysOf, Reads, Group;
    UnsortedLength(ms);
    if n < |Unsorted(ms)| {
      var cs, keys := Unsorted(ms), SortedKeys(KeysOf(ms));
      ListTotal(f, g, limit, ms, n + 1);
      OneClusterReads(f, g, limit, ms, n);
      assert cs[n..] == [cs[n]] + cs[n + 1..] && keys[n..] == [keys[n]] + keys[n + 1..];
      MinAdds(g(cs[n]), Total(g, cs[n + 1..]), Total(f, Group(ms, keys[n])), GroupTotal(f, ms, keys[n + 1..]), limit);
    }
  }

  /** Cluster totals are member totals. */
  lemma ClusterTotal(f: Member -> nat, g: RegressionCluster -> nat, limit: nat, ms: seq<Member>)
    requires Reads(f, g, limit, ms)
    ensures Min(Total(g, ClustersOf(ms)), limit) == Min(Total(f, ms), limit)
  {
    var keys := SortedKeys(KeysOf(ms));
    assert ClustersOf(ms) == Sort(ClusterOrder(), Unsorted(ms));
    SortedKeysMembers(KeysOf(ms));
    assert forall m :: m in ms ==> m.Key() in KeysOf(ms);
    assert NoRepeats(keys);
    hide *;
    ListTotal(f, g, limit, ms, 0);
    TotalSort(g, ClusterOrder(), Unsorted(ms));
    assert Unsorted(ms)[0..] == Unsorted(ms) && keys[0..] == keys;
    GroupsConserve(f, ms, keys);
  }

  // ---- the three quantities -----------------------------------------------------------------------------------

  function One(m: Member): nat { 1 }

  function CollateralOf(m: Member): nat { m.economics.baseline.collateralValueUsd }

  function DebtOf(m: Member): nat { m.economics.baseline.debtValueUsd }

  function Size(c: RegressionCluster): nat { |c.fixtureIds| }

  function ClusterCollateral(c: RegressionCluster): nat { c.collateralValueUsd }

  function ClusterDebt(c: RegressionCluster): nat { c.debtValueUsd }

  lemma {:induction false} CountMembers(ms: seq<Member>)
    ensures Total(One, ms) == |ms|
  {
    if ms != [] { CountMembers(ms[1..]); }
  }

  lemma {:induction false} CollateralTotal(ms: seq<Member>)
    ensures Total(CollateralOf, ms) == M.TrueSum(Collaterals(Cluster.Records(ms)))
  {
    if ms != [] {
      CollateralTotal(ms[1..]);
      assert Collaterals(Cluster.Records(ms))[1..] == Collaterals(Cluster.Records(ms[1..]));
    }
  }

  lemma {:induction false} DebtTotal(ms: seq<Member>)
    ensures Total(DebtOf, ms) == M.TrueSum(Debts(Cluster.Records(ms)))
  {
    if ms != [] {
      DebtTotal(ms[1..]);
      assert Debts(Cluster.Records(ms))[1..] == Debts(Cluster.Records(ms[1..]));
    }
  }

  lemma ClusterReadsMembers(ms: seq<Member>, i: nat)
    requires i < |Unsorted(ms)|
    ensures i < |SortedKeys(KeysOf(ms))|
    ensures var c, group := Unsorted(ms)[i], SortedGroup(ms, SortedKeys(KeysOf(ms))[i]);
      && Size(c) == Total(One, group)
      && ClusterCollateral(c) == Min(Total(CollateralOf, group), U128_MAX)
      && ClusterDebt(c) == Min(Total(DebtOf, group), U128_MAX)
  {
    UnsortedIds(ms, i);
    var keys := SortedKeys(KeysOf(ms));
    var group := SortedGroup(ms, keys[i]);
    SortedGroupMembers(ms, keys[i]);
    var c := ClusterAt(ms, keys, i);
    assert Size(c) == |group|;
    assert c.collateralValueUsd == M.SumUsd(Collaterals(Cluster.Records(group)));
    assert c.debtValueUsd == M.SumUsd(Debts(Cluster.Records(group)));
    CountMembers(group);
    CollateralTotal(group);
    DebtTotal(group);
    M.SumIsClamped(Collaterals(Cluster.Records(group)));
    M.SumIsClamped(Debts(Cluster.Records(group)));
    hide M.SumUsd, M.TrueSum, Unsorted, SortedKeys, KeysOf, SortedGroup, ClusterAt, Total, Collaterals, Debts, Cluster.Records, Size;
  }

  lemma SizesReadOne(ms: seq<Member>, limit: nat)
    requires limit >= |ms|
    ensures Reads(One, Size, limit, ms)
  {
    forall i: nat | i < |Unsorted(ms)| ensures ReadsAt(One, Size, limit, ms, i) {
      ClusterReadsMembers(ms, i);
      var key := SortedKeys(KeysOf(ms))[i];
      CountMembers(SortedGroup(ms, key));
      SortKeeps(IdOrder(), Group(ms, key));
      GroupIsSmaller(ms, key);
      hide Unsorted, SortedKeys, KeysOf, Total, Group, IdOrder, Sort, Size;
    }
  }

  lemma {:induction false} GroupIsSmaller(ms: seq<Member>, key: ClusterKey)
    ensures |Group(ms, key)| <= |ms|
  {
    hide Member.Key;
    if ms != [] { GroupIsSmaller(ms[..|ms| - 1], key); }
  }

  lemma CapitalReads(ms: seq<Member>)
    ensures Reads(CollateralOf, ClusterCollateral, U128_MAX, ms)
    ensures Reads(DebtOf, ClusterDebt, U128_MAX, ms)
  {
    forall i: nat | i < |Unsorted(ms)|
      ensures ReadsAt(CollateralOf, ClusterCollateral, U128_MAX, ms, i)
      ensures ReadsAt(DebtOf, ClusterDebt, U128_MAX, ms, i)
    {
      ClusterReadsMembers(ms, i);
      hide Unsorted, SortedKeys, KeysOf, Total, SortedGroup, ClusterCollateral, ClusterDebt;
    }
  }

  /** Cluster sizes add up to the number of findings. */
  lemma SizesPartition(ms: seq<Member>)
    ensures Total(Size, ClustersOf(ms)) == |ms|
  {
    var limit := |ms| + Total(Size, ClustersOf(ms));
    SizesReadOne(ms, limit);
    ClusterTotal(One, Size, limit, ms);
    CountMembers(ms);
    hide Total, ClustersOf, Reads;
  }

  // ---- findings are the affected records ------------------------------------------------------------------------

  lemma RecordForShape(fm: map<string, Fixture>, d: StateDiff)
    requires KeyedById(fm)
    ensures |RecordFor(fm, d)| <= 1
    ensures RecordFor(fm, d) != [] ==> d.fixtureId in fm && RecordFor(fm, d)[0].fixtureId == d.fixtureId
    ensures RecordFor(fm, d) != [] ==> Coherent(RecordFor(fm, d)[0])
  {
    if d.fixtureId in fm && Evaluate(fm[d.fixtureId], d).Some? {
      EvaluateIsCoherent(fm[d.fixtureId], d);
    }
    hide Coherent, I.EconomicsOf, Consequences, StateDiff.IsCritical, FindAccount;
  }

  lemma {:induction false} RecordsComeFrom(fm: map<string, Fixture>, ds: seq<StateDiff>, e: FixtureEconomics)
    ensures e in Totals.Records(fm, ds) <==> exists d :: d in ds && e in RecordFor(fm, d)
  {
    hide RecordFor;
    if ds != [] {
      RecordsComeFrom(fm, ds[1..], e);
      assert forall d :: d in ds <==> d == ds[0] || d in ds[1..];
    }
  }

  ghost predicate Answers(fm: map<string, Fixture>, rm: map<string, FixtureEconomics>, d: StateDiff) {
    RecordFor(fm, d) == if d.fixtureId in rm then [rm[d.fixtureId]] else []
  }

  lemma RecordsAnswer(fm: map<string, Fixture>, ds: seq<StateDiff>, d: StateDiff)
    requires KeyedById(fm) && DistinctDiffs(ds) && d in ds
    ensures Answers(fm, RecordsById(Totals.Records(fm, ds)), d)
  {
    var es := Totals.Records(fm, ds);
    var rm := RecordsById(es);
    RecordIds(es);
    RecordForShape(fm, d);
    hide RecordFor, RecordsById, Totals.Records, DistinctRecords;
    if d.fixtureId in rm {
      var e := rm[d.fixtureId];
      RecordsComeFrom(fm, ds, e);
      var d' :| d' in ds && e in RecordFor(fm, d');
      RecordForShape(fm, d');
      hide KeyedById, Coherent;
      assert d' == d;
    } else if RecordFor(fm, d) != [] {
      RecordsComeFrom(fm, ds, RecordFor(fm, d)[0]);
    }
  }

  lemma OneFinding(fm: map<string, Fixture>, rm: map<string, FixtureEconomics>, d: StateDiff)
    requires KeyedById(fm) && Answers(fm, rm, d)
    ensures Cluster.Records(MemberOf(fm, rm, d)) == Select(RecordFor(fm, d), IsAffected)
  {
    RecordForShape(fm, d);
    hide RecordFor;
    var r := RecordFor(fm, d);
    assert r != [] ==> Select(r, IsAffected) == if r[0].affected then [r[0]] else [] by {
      if r != [] { assert r == [] + [r[0]]; SelectPush([], r[0], IsAffected); }
    }
    assert Select([], IsAffected) == [];
    hide Select;
  }

  lemma {:induction false} RecordsAppend(fm: map<string, Fixture>, a: seq<StateDiff>, d: StateDiff)
    ensures Totals.Records(fm, a + [d]) == Totals.Records(fm, a) + RecordFor(fm, d)
  {
    hide RecordFor;
    if a != [] {
      assert (a + [d])[1..] == a[1..] + [d];
      RecordsAppend(fm, a[1..], d);
    }
  }

  lemma {:induction false} SelectAppend(a: seq<FixtureEconomics>, b: seq<FixtureEconomics>, p: FixtureEconomics -> bool)
    ensures Select(a + b, p) == Select(a, p) + Select(b, p)
  {
    if b == [] {
      assert a + b == a;
    } else {
      assert (a + b)[..|a + b| - 1] == a + b[..|b| - 1];
      SelectAppend(a, b[..|b| - 1], p);
    }
  }

  lemma RecordsOfAppend(a: seq<Member>, b: seq<Member>)
    ensures Cluster.Records(a + b) == Cluster.Records(a) + Cluster.Records(b)
  {
  }

  lemma {:induction false} FindingsAreAffected(fm: map<string, Fixture>, rm: map<string, FixtureEconomics>, ds: seq<StateDiff>)
    requires KeyedById(fm) && forall d :: d in ds ==> Answers(fm, rm, d)
    ensures Cluster.Records(MembersOf(fm, rm, ds)) == Select(Totals.Records(fm, ds), IsAffected)
  {
    if ds != [] {
      var init, last := ds[..|ds| - 1], ds[|ds| - 1];
      assert ds == init + [last] && last in ds;
      FindingsAreAffected(fm, rm, init);
      OneFinding(fm, rm, last);
      RecordsAppend(fm, init, last);
      SelectAppend(Totals.Records(fm, init), RecordFor(fm, last), IsAffected);
      assert MembersOf(fm, rm, ds) == MembersOf(fm, rm, init) + MemberOf(fm, rm, last);
      RecordsOfAppend(MembersOf(fm, rm, init), MemberOf(fm, rm, last));
      hide Cluster.Records, Answers, MembersOf, MemberOf, RecordFor, Totals.Records, Select;
    }
  }

  lemma AffectedFindings(fs: seq<Fixture>, ds: seq<StateDiff>)
    requires DistinctDiffs(ds)
    ensures var es := EvaluateAll(fs, ds);
      Cluster.Records(MembersOf(FixturesById(fs), RecordsById(es), ds)) == Select(es, IsAffected)
  {
    var fm := FixturesById(fs);
    FixtureIds(fs);
    var rm := RecordsById(Totals.Records(fm, ds));
    hide FixturesById, RecordsById, Answers, Totals.Records, DistinctDiffs, Select, MembersOf;
    forall d | d in ds ensures Answers(fm, rm, d) {
      RecordsAnswer(fm, ds, d);
    }
    FindingsAreAffected(fm, rm, ds);
  }

  // ---- the conservation law ---------------------------------------------------------------------------------------

  /** The clusters of a run partition its affected positions, and their capital is the affected capital. */
  lemma ClustersConserveAffected(fs: seq<Fixture>, ds: seq<StateDiff>, s: Summary)
    requires DistinctDiffs(ds) && Summarizes(EvaluateAll(fs, ds), s)
    ensures var cs := Clusters(fs, ds, EvaluateAll(fs, ds));
      && Total(Size, cs) == s.affected.positions
      && Min(Total(ClusterCollateral, cs), U128_MAX) == s.affected.collateral
      && Min(Total(ClusterDebt, cs), U128_MAX) == s.affected.debt
  {
    var es := EvaluateAll(fs, ds);
    var ms := MembersOf(FixturesById(fs), RecordsById(es), ds);
    AffectedFindings(fs, ds);
    var affected := Select(es, IsAffected);
    assert s.affected == Capital(affected) && Cluster.Records(ms) == affected;
    assert |affected| == |ms|;
    assert Clusters(fs, ds, es) == ClustersOf(ms);
    hide *;
    SizesPartition(ms);
    CapitalReads(ms);
    ClusterTotal(CollateralOf, ClusterCollateral, U128_MAX, ms);
    ClusterTotal(DebtOf, ClusterDebt, U128_MAX, ms);
    CapitalMeans(affected);
    CollateralTotal(ms);
    DebtTotal(ms);
  }

  lemma CapitalMeans(es: seq<FixtureEconomics>)
    ensures Capital(es).positions == |es|
    ensures Capital(es).collateral == Min(M.TrueSum(Collaterals(es)), U128_MAX)
    ensures Capital(es).debt == Min(M.TrueSum(Debts(es)), U128_MAX)
  {
    M.SumIsClamped(Collaterals(es));
    M.SumIsClamped(Debts(es));
    hide M.SumUsd, M.TrueSum;
  }

  // ---- membership -------------------------------------------------------------------------------------------------

  lemma ClusterIndex(ms: seq<Member>, c: RegressionCluster) returns (i: nat)
    requires c in ClustersOf(ms)
    ensures i < |SortedKeys(KeysOf(ms))| && SortedKeys(KeysOf(ms))[i] in KeysOf(ms)
    ensures c == ClusterAt(ms, SortedKeys(KeysOf(ms)), i) && SpeaksFor(c, ms, SortedKeys(KeysOf(ms))[i])
  {
    hide *;
    SameClusters(ms);
    i :| i < |Unsorted(ms)| && Unsorted(ms)[i] == c;
    UnsortedIds(ms, i);
    ClusterSpeaks(ms, SortedKeys(KeysOf(ms)), i);
  }

  lemma ClusterIdAt(ms: seq<Member>, keys: seq<ClusterKey>, i: nat)
    requires i < |keys| && keys[i] in KeysOf(ms)
    ensures ClusterAt(ms, keys, i).id == ClusterId(keys, i)
  {
  }

  lemma SpeakerKey(c: RegressionCluster, ms: seq<Member>, key: ClusterKey, m: Member)
    requires DistinctMembers(ms) && SpeaksFor(c, ms, key) && m in ms && MemberId(m) in c.fixtureIds
    ensures m.Key() == key
  {
  }

  /** A finding is listed by one cluster only. */
  lemma FindingsAreListedOnce(ms: seq<Member>, c: RegressionCluster, d: RegressionCluster, m: Member)
    requires DistinctMembers(ms) && c in ClustersOf(ms) && d in ClustersOf(ms) && m in ms
    requires MemberId(m) in c.fixtureIds && MemberId(m) in d.fixtureIds
    ensures c == d
  {
    SortedKeysMembers(KeysOf(ms));
    hide *;
    var i := ClusterIndex(ms, c);
    var j := ClusterIndex(ms, d);
    SpeakerKey(c, ms, SortedKeys(KeysOf(ms))[i], m);
    SpeakerKey(d, ms, SortedKeys(KeysOf(ms))[j], m);
    assert i < j || j < i || i == j;
  }

  lemma FindingsAreCoherent(fs: seq<Fixture>, ds: seq<StateDiff>, m: Member)
    requires m in MembersOf(FixturesById(fs), RecordsById(EvaluateAll(fs, ds)), ds)
    ensures Coherent(m.economics)
  {
    var fm, es := FixturesById(fs), EvaluateAll(fs, ds);
    MembersAre(fm, RecordsById(es), ds);
    RecordIds(es);
    RecordsAreCoherent(fm, ds);
    hide Coherent, FixturesById, RecordsById, Totals.Records, MembersOf, DistinctRecords;
  }

  /** In a run, every position a cluster lists is critical exactly when the cluster is. */
  lemma ClusterCriticalThroughout(fs: seq<Fixture>, ds: seq<StateDiff>, c: RegressionCluster, m: Member)
    requires DistinctDiffs(ds) && c in Clusters(fs, ds, EvaluateAll(fs, ds))
    requires m in MembersOf(FixturesById(fs), RecordsById(EvaluateAll(fs, ds)), ds) && MemberId(m) in c.fixtureIds
    ensures m.economics.critical == c.critical
  {
    var fm, rm := FixturesById(fs), RecordsById(EvaluateAll(fs, ds));
    var ms := MembersOf(fm, rm, ds);
    FixtureIds(fs);
    assert KeyedById(fm);
    assert c in ClustersOf(ms);
    hide *;
    MembersAreDistinct(fm, rm, ds);
    forall x | x in ms ensures Coherent(x.economics) {
      FindingsAreCoherent(fs, ds, x);
    }
    var i := ClusterIndex(ms, c);
    SpeakerKey(c, ms, SortedKeys(KeysOf(ms))[i], m);
    ClusterIsUniform(ms, SortedKeys(KeysOf(ms)), i, m);
  }
}
