/** Order, identity and content of a finished cluster list (engine/src/cluster.rs:105-115, 244-282, 474-554). */
module ClusterFacts {
  import opened Prelude
  import opened Types
  import opened Order
  import opened Diff
  import opened Totals
  import opened Cluster
  import opened ClusterIds
  import opened ClusterProperties
  import R = Reference

  // ---- every key is a named one ---------------------------------------------------------------------

  ghost predicate NamedMembers(ms: seq<Member>) {
    forall m :: m in ms ==> NamedKey(m.Key())
  }

  lemma FindingsAreNamed(fm: map<string, Fixture>, rm: map<string, FixtureEconomics>, ds: seq<StateDiff>)
    ensures NamedMembers(MembersOf(fm, rm, ds))
  {
  }

  lemma KeysAreNamed(ms: seq<Member>)
    requires NamedMembers(ms)
    ensures forall k :: k in KeysOf(ms) ==> NamedKey(k)
  {
  }

  // ---- ids and final order ------------------------------------------------------------------------------

  function ClusterIdOf(c: RegressionCluster): string {
    c.id
  }

  function ByClusterId(): (RegressionCluster, RegressionCluster) -> int {
    Via(ClusterIdOf, CompareStrings)
  }

  lemma ClusterIdsCompare(a: RegressionCluster, b: RegressionCluster)
    ensures ByClusterId()(a, b) == 0 <==> a.id == b.id
  {
    ViaMeans(ClusterIdOf, CompareStrings, a, b);
    assert ByClusterId() == Via(ClusterIdOf, CompareStrings);
    hide Via, ByClusterId;
    StringsTotal();
    hide CompareStrings, Preorder;
  }

  function Unsorted(ms: seq<Member>): (r: seq<RegressionCluster>) {
    SortedKeysMembers(KeysOf(ms));
    ClusterList(ms, SortedKeys(KeysOf(ms)))
  }

  lemma UnsortedIds(ms: seq<Member>, i: nat)
    requires i < |Unsorted(ms)|
    ensures i < |SortedKeys(KeysOf(ms))| && SortedKeys(KeysOf(ms))[i] in KeysOf(ms)
    ensures Unsorted(ms)[i] == ClusterAt(ms, SortedKeys(KeysOf(ms)), i)
    ensures Unsorted(ms)[i].id == ClusterId(SortedKeys(KeysOf(ms)), i)
  {
    SortedKeysMembers(KeysOf(ms));
    hide SortedKeys, ClusterId, KeysOf, SortedGroup;
  }

  lemma UnsortedIdsDiffer(ms: seq<Member>)
    requires NamedMembers(ms)
    ensures PairwiseDistinct(ByClusterId(), Unsorted(ms))
  {
    KeysAreNamed(ms);
    var r := Unsorted(ms);
    hide ByClusterId, NamedMembers, Unsorted, ClusterId, KeysOf, SortedKeys, NamedKey, ClusterAt;
    forall i, j | 0 <= i < j < |r| ensures ByClusterId()(r[i], r[j]) != 0 && ByClusterId()(r[j], r[i]) != 0 {
      UnsortedIds(ms, i);
      UnsortedIds(ms, j);
      IdsDiffer(SortedKeys(KeysOf(ms)), i, j);
      ClusterIdsCompare(r[i], r[j]);
      ClusterIdsCompare(r[j], r[i]);
    }
  }

  lemma SortedIdsDiffer(ms: seq<Member>)
    requires NamedMembers(ms)
    ensures PairwiseDistinct(ByClusterId(), ClustersOf(ms))
  {
    UnsortedIdsDiffer(ms);
    assert ClustersOf(ms) == Sort(ClusterOrder(), Unsorted(ms));
    SortKeeps(ClusterOrder(), Unsorted(ms));
    hide ClustersOf, Unsorted, ByClusterId, PairwiseDistinct, ClusterOrder, Sort;
    forall c ensures ByClusterId()(c, c) == 0 {
      ClusterIdsCompare(c, c);
    }
    DistinctPermutes(ByClusterId(), Unsorted(ms), ClustersOf(ms));
  }

  /** Ids are pairwise distinct in every cluster list. */
  lemma ClusterIdsAreDistinct(fs: seq<Fixture>, ds: seq<StateDiff>, es: seq<FixtureEconomics>, i: nat, j: nat)
    requires i < j < |Clusters(fs, ds, es)|
    ensures Clusters(fs, ds, es)[i].id != Clusters(fs, ds, es)[j].id
  {
    var ms := MembersOf(FixturesById(fs), RecordsById(es), ds);
    FindingsAreNamed(FixturesById(fs), RecordsById(es), ds);
    SortedIdsDiffer(ms);
    ClusterIdsCompare(ClustersOf(ms)[i], ClustersOf(ms)[j]);
    hide ClustersOf, ByClusterId, MembersOf, FixturesById, RecordsById;
  }

  lemma ClusterOrderIsPreorder()
    ensures Preorder(ClusterOrder())
  {
    StringsTotal();
    BoolsTotal();
    var one := Via((c: RegressionCluster) => c.critical, CompareBools);
    var two := Via((c: RegressionCluster) => |c.fixtureIds|, CompareInts);
    var three := Via((c: RegressionCluster) => c.id, CompareStrings);
    assert ClusterOrder() == Then(Reversed(one), Then(Reversed(two), three));
    assert Preorder(CompareInts);
    hide CompareStrings, CompareBools, CompareInts, Preorder, Then, Reversed, ClusterOrder;
    ViaPreorder((c: RegressionCluster) => c.critical, CompareBools);
    ViaPreorder((c: RegressionCluster) => |c.fixtureIds|, CompareInts);
    ViaPreorder((c: RegressionCluster) => c.id, CompareStrings);
    ReversedPreorder(one);
    ReversedPreorder(two);
    ThenPreorder(Reversed(two), three);
    ThenPreorder(Reversed(one), Then(Reversed(two), three));
  }

  /** The final order in words: critical first, then larger, then smaller id. */
  lemma ClusterOrderMeans(a: RegressionCluster, b: RegressionCluster)
    ensures ClusterOrder()(a, b) < 0 <==>
      || (a.critical && !b.critical)
      || (a.critical == b.critical && |a.fixtureIds| > |b.fixtureIds|)
      || (a.critical == b.critical && |a.fixtureIds| == |b.fixtureIds| && CompareStrings(a.id, b.id) < 0)
  {
    var one := Reversed(Via((c: RegressionCluster) => c.critical, CompareBools));
    var two := Reversed(Via((c: RegressionCluster) => |c.fixtureIds|, CompareInts));
    var three := Via((c: RegressionCluster) => c.id, CompareStrings);
    hide CompareStrings;
    assert one(a, b) == CompareBools(b.critical, a.critical);
    assert two(a, b) == CompareInts(|b.fixtureIds|, |a.fixtureIds|);
    assert three(a, b) == CompareStrings(a.id, b.id);
    ThenNegative(two, three, a, b);
    ThenNegative(one, Then(two, three), a, b);
  }

  lemma OrderSeparates(s: seq<RegressionCluster>)
    requires PairwiseDistinct(ByClusterId(), s)
    ensures PairwiseDistinct(ClusterOrder(), s)
  {
    forall i, j | 0 <= i < j < |s| ensures ClusterOrder()(s[i], s[j]) != 0 && ClusterOrder()(s[j], s[i]) != 0 {
      OrderTiesById(s[i], s[j]);
      OrderTiesById(s[j], s[i]);
      hide ClusterOrder, ByClusterId;
    }
  }

  lemma OrderTiesById(a: RegressionCluster, b: RegressionCluster)
    ensures ClusterOrder()(a, b) == 0 ==> ByClusterId()(a, b) == 0
  {
    var one := Reversed(Via((c: RegressionCluster) => c.critical, CompareBools));
    var two := Reversed(Via((c: RegressionCluster) => |c.fixtureIds|, CompareInts));
    var three := Via((c: RegressionCluster) => c.id, CompareStrings);
    ViaMeans((c: RegressionCluster) => c.id, CompareStrings, a, b);
    ViaMeans(ClusterIdOf, CompareStrings, a, b);
    assert ByClusterId()(a, b) == three(a, b);
    hide CompareStrings, ByClusterId;
    ThenZero(two, three, a, b);
    ThenZero(one, Then(two, three), a, b);
  }

  /** No two clusters tie, so the final order is fixed: critical first, then size, then id. */
  lemma FinalOrderIsStrict(fs: seq<Fixture>, ds: seq<StateDiff>, es: seq<FixtureEconomics>)
    ensures StrictlySorted(ClusterOrder(), Clusters(fs, ds, es))
  {
    var ms := MembersOf(FixturesById(fs), RecordsById(es), ds);
    FindingsAreNamed(FixturesById(fs), RecordsById(es), ds);
    UnsortedIdsDiffer(ms);
    assert ClustersOf(ms) == Sort(ClusterOrder(), Unsorted(ms));
    hide ByClusterId, MembersOf, FixturesById, RecordsById, NamedMembers, Unsorted, ClustersOf, Sort, PairwiseDistinct, ClusterOrder, StrictlySorted;
    OrderSeparates(Unsorted(ms));
    ClusterOrderIsPreorder();
    DistinctSortsStrictly(ClusterOrder(), Unsorted(ms));
  }

  // ---- what one cluster holds -------------------------------------------------------------------------------

  /** A cluster is exactly the members of one key, and speaks for all of them. */
  ghost predicate SpeaksFor(c: RegressionCluster, ms: seq<Member>, key: ClusterKey) {
    && key in KeysOf(ms)
    && c.consequences == key.consequences && c.action == key.action && c.differenceKinds == key.differenceKinds
    && (forall id :: id in c.fixtureIds <==> exists m :: m in ms && m.Key() == key && MemberId(m) == id)
    && c.representativeFixtureId in c.fixtureIds
    && c.minimizedCounterexample == None
  }

  lemma MappedMembers(group: seq<Member>, id: string)
    ensures id in MapMembers(MemberId, group) <==> exists m :: m in group && MemberId(m) == id
  {
  }

  lemma ClusterFields(ms: seq<Member>, keys: seq<ClusterKey>, i: nat)
    requires i < |keys| && keys[i] in KeysOf(ms)
    ensures var c, group := ClusterAt(ms, keys, i), SortedGroup(ms, keys[i]);
      && group != [] && Representative(group) in group
      && c.fixtureIds == MapMembers(MemberId, group) && c.representativeFixtureId == MemberId(Representative(group))
      && c.minimizedCounterexample == None
      && c.consequences == keys[i].consequences && c.action == keys[i].action && c.differenceKinds == keys[i].differenceKinds
  {
    SortedGroupMembers(ms, keys[i]);
    RepresentativeIsMember(SortedGroup(ms, keys[i]));
    hide Member.Key, SortedGroup, KeysOf, Representative, MapMembers;
  }

  lemma ClusterSpeaks(ms: seq<Member>, keys: seq<ClusterKey>, i: nat)
    requires i < |keys| && keys[i] in KeysOf(ms)
    ensures SpeaksFor(ClusterAt(ms, keys, i), ms, keys[i])
  {
    hide Member.Key, SortedGroup, KeysOf, Representative, ClusterAt, MapMembers, MemberId, ClusterId;
    ClusterFields(ms, keys, i);
    SortedGroupMembers(ms, keys[i]);
    var group := SortedGroup(ms, keys[i]);
    GroupIds(group, ms, keys[i]);
    MappedMembers(group, MemberId(Representative(group)));
  }

  lemma GroupIds(group: seq<Member>, ms: seq<Member>, key: ClusterKey)
    requires forall m :: m in group <==> m in ms && m.Key() == key
    ensures forall id :: id in MapMembers(MemberId, group) <==> exists m :: m in ms && m.Key() == key && MemberId(m) == id
  {
  }

  lemma SameClusters(ms: seq<Member>)
    ensures forall c :: c in ClustersOf(ms) <==> c in Unsorted(ms)
  {
    assert ClustersOf(ms) == Sort(ClusterOrder(), Unsorted(ms));
    SortKeeps(ClusterOrder(), Unsorted(ms));
    SameMembers(ClustersOf(ms), Unsorted(ms));
  }

  /** Every listed cluster speaks for one regression class. */
  lemma EveryClusterSpeaks(ms: seq<Member>, c: RegressionCluster)
    requires c in ClustersOf(ms)
    ensures exists key :: SpeaksFor(c, ms, key)
  {
    hide *;
    SameClusters(ms);
    var i: nat :| i < |Unsorted(ms)| && Unsorted(ms)[i] == c;
    UnsortedIds(ms, i);
    ClusterSpeaks(ms, SortedKeys(KeysOf(ms)), i);
  }

  /** And every finding has its cluster. */
  lemma EveryFindingIsListed(ms: seq<Member>, m: Member)
    requires m in ms
    ensures exists c :: c in ClustersOf(ms) && SpeaksFor(c, ms, m.Key())
  {
    assert m.Key() in KeysOf(ms);
    var keys := SortedKeys(KeysOf(ms));
    SortedKeysMembers(KeysOf(ms));
    assert |Unsorted(ms)| == |keys|;
    hide *;
    SameClusters(ms);
    var i: nat :| i < |keys| && keys[i] == m.Key();
    UnsortedIds(ms, i);
    ClusterSpeaks(ms, keys, i);
    assert Unsorted(ms)[i] in ClustersOf(ms);
  }

  lemma CriticalByConsequence(a: Member, b: Member)
    requires Coherent(a.economics) && Coherent(b.economics) && a.Key() == b.Key()
    ensures a.economics.critical == b.economics.critical
  {
  }

  /** A cluster is critical throughout or not at all. */
  lemma ClusterIsUniform(ms: seq<Member>, keys: seq<ClusterKey>, i: nat, m: Member)
    requires forall x :: x in ms ==> Coherent(x.economics)
    requires i < |keys| && m in ms && m.Key() == keys[i] && keys[i] in KeysOf(ms)
    ensures ClusterAt(ms, keys, i).critical == m.economics.critical
  {
    SortedGroupMembers(ms, keys[i]);
    var group := SortedGroup(ms, keys[i]);
    assert ClusterAt(ms, keys, i).critical == exists x :: x in group && x.economics.critical;
    hide Member.Key, SortedGroup, ClusterAt, Coherent, KeysOf;
    forall x | x in group ensures x.economics.critical == m.economics.critical {
      CriticalByConsequence(x, m);
    }
  }

  // ---- the representative ----------------------------------------------------------------------------------------

  lemma {:induction false} RepresentativeIsMember(ms: seq<Member>)
    requires ms != []
    ensures Representative(ms) in ms
  {
    hide RankOrder;
    if |ms| > 1 { RepresentativeIsMember(ms[..|ms| - 1]); }
  }

  lemma RankPreorder()
    ensures Preorder(RankOrder())
  {
    IdPreorder();
    assert Preorder(CompareInts);
    var one := Via(EdgeProperties, CompareInts);
    var two := Via(Magnitude, CompareInts);
    var three := Via(BoundaryDistance, CompareInts);
    assert RankOrder() == Then(one, Then(two, Then(three, IdOrder())));
    hide CompareInts, Preorder, Then, RankOrder, IdOrder, EdgeProperties, Magnitude, BoundaryDistance;
    ViaPreorder(EdgeProperties, CompareInts);
    ViaPreorder(Magnitude, CompareInts);
    ViaPreorder(BoundaryDistance, CompareInts);
    ThenPreorder(three, IdOrder());
    ThenPreorder(two, Then(three, IdOrder()));
    ThenPreorder(one, Then(two, Then(three, IdOrder())));
  }

  lemma {:induction false} RepresentativeIsLeast(ms: seq<Member>)
    requires ms != []
    ensures forall m :: m in ms ==> RankOrder()(Representative(ms), m) <= 0
  {
    RankPreorder();
    var cmp := RankOrder();
    assert forall x :: cmp(x, x) <= 0 by {
      forall x ensures cmp(x, x) <= 0 {
        assert cmp(x, x) < 0 <==> cmp(x, x) > 0;
      }
    }
    hide RankOrder;
    if |ms| > 1 {
      var init, last := ms[..|ms| - 1], ms[|ms| - 1];
      RepresentativeIsLeast(init);
      var best := Representative(init);
      assert cmp(last, best) < 0 <==> cmp(best, last) > 0;
      forall m | m in ms ensures cmp(Representative(ms), m) <= 0 {
        if m != last {
          assert m in init;
        }
      }
    }
  }

  lemma RankTiesById(a: Member, b: Member)
    ensures RankOrder()(a, b) == 0 ==> a.fixture.id == b.fixture.id
  {
    IdsCompare(a, b);
    hide IdOrder, EdgeProperties, Magnitude, BoundaryDistance;
  }

  /** The id breaks every tie, so the representative is the one best example. */
  lemma RepresentativeIsUnique(ms: seq<Member>, m: Member)
    requires m in ms && DistinctMembers(ms) && m != Representative(ms)
    ensures RankOrder()(Representative(ms), m) < 0
  {
    RepresentativeIsLeast(ms);
    RepresentativeIsMember(ms);
    RankTiesById(Representative(ms), m);
    hide RankOrder, Representative;
  }

  // ---- ranges ----------------------------------------------------------------------------------------------

  /** The cutoff floors before it compares, so spans just over twenty percent still pass. */
  lemma InformativeCutoff(min: i128, max: i128)
    requires min <= max
    ensures var scale := Max(Abs(max), Abs(min));
      IsInformative(min, max) <==> min == max || (max as int - min) * 10_000 < 2_001 * scale
  {
    var scale := Max(Abs(max), Abs(min));
    if min < max { R.QuotientIffProduct((max as int - min) * 10_000, scale, INFORMATIVE_SPREAD_BPS + 1); }
  }

  /** A range is reported exactly when every member supplied a value, and then its ends are members'
      values with all the others between them. */
  lemma RangeIsTight(field: string, metric: Metric, values: seq<i128>, members: nat)
    requires metric.Lamports? || metric.HealthMetric? ==> forall v :: v in values ==> v <= U64_MAX
    ensures var r := RangePart(field, metric, values, members);
      && (r != [] <==> |values| == members && members > 0)
      && (r != [] ==> |r| == 1 && r[0].min in values && r[0].max in values
                      && forall v :: v in values ==> r[0].min <= v <= r[0].max)
  {
  }

  /** Health is ranged over only when every member has a health and none is debt-free. */
  lemma FiniteWhen(healths: seq<Option<u64>>)
    requires healths != []
    ensures |Finite(healths)| == |healths| <==> forall h :: h in healths ==> h.Some? && h.value != R.HEALTH_INFINITE
  {
  }

  /** A condition is stated exactly when there is a value and every value is that one. */
  lemma ConditionMeansAgreement(field: string, values: seq<string>, value: string)
    ensures Condition(field, value) in SharedPart(field, values) <==> values != [] && forall v :: v in values ==> v == value
  {
    if values != [] { assert values[0] in values; }
  }
}
