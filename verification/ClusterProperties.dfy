/** What a reader may rely on in a list of clusters (engine/src/cluster.rs:440-555). */
module ClusterProperties {
  import opened Types
  import opened Order
  import opened Diff
  import opened Totals
  import opened Cluster

  ghost predicate DistinctFixtures(fs: seq<Fixture>) {
    forall i, j :: 0 <= i < j < |fs| ==> fs[i].id != fs[j].id
  }

  ghost predicate DistinctDiffs(ds: seq<StateDiff>) {
    forall i, j :: 0 <= i < j < |ds| ==> ds[i].fixtureId != ds[j].fixtureId
  }

  ghost predicate DistinctRecords(es: seq<FixtureEconomics>) {
    forall i, j :: 0 <= i < j < |es| ==> es[i].fixtureId != es[j].fixtureId
  }

  // ---- lookups by id ------------------------------------------------------------------------------

  lemma {:induction false} FixtureIds(fs: seq<Fixture>)
    ensures forall id :: id in FixturesById(fs) ==> FixturesById(fs)[id] in fs && FixturesById(fs)[id].id == id
    ensures forall f :: f in fs ==> f.id in FixturesById(fs)
    ensures DistinctFixtures(fs) ==> forall f :: f in fs ==> FixturesById(fs)[f.id] == f
  {
    if fs != [] {
      var init, last := fs[..|fs| - 1], fs[|fs| - 1];
      FixtureIds(init);
      assert forall f :: f in fs <==> f in init || f == last;
      if DistinctFixtures(fs) {
        assert forall f :: f in init ==> f.id != last.id;
      }
    }
  }

  lemma {:induction false} RecordIds(es: seq<FixtureEconomics>)
    ensures forall id :: id in RecordsById(es) ==> RecordsById(es)[id] in es && RecordsById(es)[id].fixtureId == id
    ensures forall e :: e in es ==> e.fixtureId in RecordsById(es)
    ensures DistinctRecords(es) ==> forall e :: e in es ==> RecordsById(es)[e.fixtureId] == e
  {
    if es != [] {
      var init, last := es[..|es| - 1], es[|es| - 1];
      RecordIds(init);
      assert forall e :: e in es <==> e in init || e == last;
      if DistinctRecords(es) {
        assert forall e :: e in init ==> e.fixtureId != last.fixtureId;
      }
    }
  }

  /** Of several fixtures of one id the last is kept, and likewise of several records. */
  lemma {:induction false} LastFixtureIsKept(fs: seq<Fixture>, i: nat)
    requires i < |fs| && forall k :: i < k < |fs| ==> fs[k].id != fs[i].id
    ensures fs[i].id in FixturesById(fs) && FixturesById(fs)[fs[i].id] == fs[i]
  {
    if i < |fs| - 1 { LastFixtureIsKept(fs[..|fs| - 1], i); }
  }

  lemma {:induction false} LastRecordIsKept(es: seq<FixtureEconomics>, i: nat)
    requires i < |es| && forall k :: i < k < |es| ==> es[k].fixtureId != es[i].fixtureId
    ensures es[i].fixtureId in RecordsById(es) && RecordsById(es)[es[i].fixtureId] == es[i]
  {
    if i < |es| - 1 { LastRecordIsKept(es[..|es| - 1], i); }
  }

  lemma SameMembers<T>(a: seq<T>, b: seq<T>)
    requires multiset(a) == multiset(b)
    ensures forall x :: x in a <==> x in b
  {
    forall x ensures x in a <==> x in b {
      assert x in multiset(a) <==> x in multiset(b);
    }
  }

  lemma FixtureMapsAgree(a: seq<Fixture>, b: seq<Fixture>)
    requires DistinctFixtures(a) && DistinctFixtures(b) && multiset(a) == multiset(b)
    ensures FixturesById(a) == FixturesById(b)
  {
    FixtureIds(a);
    FixtureIds(b);
    SameMembers(a, b);
    hide FixturesById, DistinctFixtures;
  }

  lemma RecordMapsAgree(a: seq<FixtureEconomics>, b: seq<FixtureEconomics>)
    requires DistinctRecords(a) && DistinctRecords(b) && multiset(a) == multiset(b)
    ensures RecordsById(a) == RecordsById(b)
  {
    RecordIds(a);
    RecordIds(b);
    SameMembers(a, b);
    hide RecordsById, DistinctRecords;
  }

  // ---- members --------------------------------------------------------------------------------------

  ghost predicate KeyedById(fm: map<string, Fixture>) {
    forall id :: id in fm ==> fm[id].id == id
  }

  ghost predicate DistinctMembers(ms: seq<Member>) {
    forall i, j :: 0 <= i < j < |ms| ==> ms[i].fixture.id != ms[j].fixture.id
  }

  lemma {:induction false} MembersAre(fm: map<string, Fixture>, rm: map<string, FixtureEconomics>, ds: seq<StateDiff>)
    ensures forall m :: m in MembersOf(fm, rm, ds) <==> m.diff in ds && MemberOf(fm, rm, m.diff) == [m]
  {
    if ds != [] {
      var init, last := ds[..|ds| - 1], ds[|ds| - 1];
      MembersAre(fm, rm, init);
      assert forall d :: d in ds <==> d in init || d == last;
      assert forall m :: m in MemberOf(fm, rm, last) <==> m.diff == last && MemberOf(fm, rm, m.diff) == [m];
      hide MemberOf;
    }
  }

  lemma MemberShape(fm: map<string, Fixture>, rm: map<string, FixtureEconomics>, m: Member)
    requires KeyedById(fm) && MemberOf(fm, rm, m.diff) == [m]
    ensures m.fixture.id == m.diff.fixtureId && m.economics.consequences != []
  {
  }

  lemma {:induction false} MembersAreDistinct(fm: map<string, Fixture>, rm: map<string, FixtureEconomics>, ds: seq<StateDiff>)
    requires KeyedById(fm) && DistinctDiffs(ds)
    ensures DistinctMembers(MembersOf(fm, rm, ds))
  {
    if ds != [] {
      var init, last := ds[..|ds| - 1], ds[|ds| - 1];
      MembersAreDistinct(fm, rm, init);
      MembersAre(fm, rm, init);
      var ms := MembersOf(fm, rm, init);
      assert forall d :: d in init ==> d.fixtureId != last.fixtureId;
      forall m | m in ms ensures m.fixture.id != last.fixtureId {
        MemberShape(fm, rm, m);
      }
    }
  }

  lemma {:induction false} GroupIsDistinct(ms: seq<Member>, key: ClusterKey)
    requires DistinctMembers(ms)
    ensures DistinctMembers(Group(ms, key))
  {
    if ms != [] {
      var init, last := ms[..|ms| - 1], ms[|ms| - 1];
      GroupIsDistinct(init, key);
      GroupMembers(init, key);
      assert forall m :: m in init ==> m.fixture.id != last.fixture.id;
      hide Member.Key;
    }
  }

  lemma IdsCompare(a: Member, b: Member)
    ensures IdOrder()(a, b) == 0 <==> a.fixture.id == b.fixture.id
  {
    ViaMeans(MemberId, CompareStrings, a, b);
    assert IdOrder() == Via(MemberId, CompareStrings);
    hide Via, IdOrder;
    StringsTotal();
    hide CompareStrings, Preorder;
  }

  lemma DistinctIds(ms: seq<Member>)
    requires DistinctMembers(ms)
    ensures PairwiseDistinct(IdOrder(), ms)
  {
    forall i, j | 0 <= i < j < |ms| ensures IdOrder()(ms[i], ms[j]) != 0 && IdOrder()(ms[j], ms[i]) != 0 {
      IdsCompare(ms[i], ms[j]);
      IdsCompare(ms[j], ms[i]);
      hide IdOrder;
    }
  }

  lemma IdPreorder()
    ensures Preorder(IdOrder())
  {
    StringsTotal();
    hide CompareStrings, Preorder, Via;
    ViaPreorder(MemberId, CompareStrings);
  }

  lemma OnceEach<T(!new)>(a: seq<T>, x: T)
    requires forall i, j :: 0 <= i < j < |a| ==> a[i] != a[j]
    ensures multiset(a)[x] == if x in a then 1 else 0
  {
    if multiset(a)[x] >= 2 {
      TwiceOccurs(a, x);
    }
    assert x in multiset(a) <==> x in a;
  }

  lemma SameSetSameMultiset<T(!new)>(a: seq<T>, b: seq<T>)
    requires forall i, j :: 0 <= i < j < |a| ==> a[i] != a[j]
    requires forall i, j :: 0 <= i < j < |b| ==> b[i] != b[j]
    requires forall x :: x in a <==> x in b
    ensures multiset(a) == multiset(b)
  {
    forall x ensures multiset(a)[x] == multiset(b)[x] {
      OnceEach(a, x);
      OnceEach(b, x);
    }
  }

  lemma GroupsAgree(a: seq<Member>, b: seq<Member>, key: ClusterKey)
    requires DistinctMembers(a) && DistinctMembers(b) && forall m :: m in a <==> m in b
    ensures SortedGroup(a, key) == SortedGroup(b, key)
  {
    GroupIsDistinct(a, key);
    GroupIsDistinct(b, key);
    GroupMembers(a, key);
    GroupMembers(b, key);
    hide Member.Key, Group;
    SameSetSameMultiset(Group(a, key), Group(b, key));
    DistinctIds(Group(a, key));
    IdPreorder();
    SortForgetsOrder(IdOrder(), Group(a, key), Group(b, key));
  }

  lemma KeysAgree(a: seq<Member>, b: seq<Member>)
    requires forall m :: m in a <==> m in b
    ensures KeysOf(a) == KeysOf(b)
  {
  }

  lemma ClustersAgree(a: seq<Member>, b: seq<Member>, keys: seq<ClusterKey>, i: nat)
    requires DistinctMembers(a) && DistinctMembers(b) && forall m :: m in a <==> m in b
    requires i < |keys| && keys[i] in KeysOf(a) && keys[i] in KeysOf(b)
    ensures ClusterAt(a, keys, i) == ClusterAt(b, keys, i)
  {
    GroupsAgree(a, b, keys[i]);
    hide SortedGroup, ClusterFrom, ClusterId, KeysOf, DistinctMembers;
  }

  lemma ListsAgree(a: seq<Member>, b: seq<Member>, keys: seq<ClusterKey>)
    requires DistinctMembers(a) && DistinctMembers(b) && forall m :: m in a <==> m in b
    requires forall k :: k in keys ==> k in KeysOf(a) && k in KeysOf(b)
    ensures ClusterList(a, keys) == ClusterList(b, keys)
  {
    hide DistinctMembers, ClusterAt, KeysOf;
    forall i | 0 <= i < |keys| ensures ClusterAt(a, keys, i) == ClusterAt(b, keys, i) {
      ClustersAgree(a, b, keys, i);
    }
  }

  lemma ClusterListsAgree(a: seq<Member>, b: seq<Member>)
    requires DistinctMembers(a) && DistinctMembers(b) && forall m :: m in a <==> m in b
    ensures ClustersOf(a) == ClustersOf(b)
  {
    KeysAgree(a, b);
    SortedKeysMembers(KeysOf(a));
    hide DistinctMembers, ClusterAt, KeysOf, SortedKeys, Sort, ClusterOrder, ClusterList;
    ListsAgree(a, b, SortedKeys(KeysOf(a)));
  }

  /** Clustering does not depend on the order of any of its three inputs. */
  lemma ClusteringForgetsOrder(f1: seq<Fixture>, f2: seq<Fixture>, d1: seq<StateDiff>, d2: seq<StateDiff>,
                               e1: seq<FixtureEconomics>, e2: seq<FixtureEconomics>)
    requires DistinctFixtures(f1) && DistinctFixtures(f2) && multiset(f1) == multiset(f2)
    requires DistinctDiffs(d1) && DistinctDiffs(d2) && multiset(d1) == multiset(d2)
    requires DistinctRecords(e1) && DistinctRecords(e2) && multiset(e1) == multiset(e2)
    ensures Clusters(f1, d1, e1) == Clusters(f2, d2, e2)
  {
    FixtureMapsAgree(f1, f2);
    RecordMapsAgree(e1, e2);
    var fm, rm := FixturesById(f1), RecordsById(e1);
    FixtureIds(f1);
    SameMembers(d1, d2);
    MembersAre(fm, rm, d1);
    MembersAre(fm, rm, d2);
    MembersAreDistinct(fm, rm, d1);
    MembersAreDistinct(fm, rm, d2);
    hide FixturesById, RecordsById, MembersOf, MemberOf, DistinctMembers, ClustersOf, DistinctDiffs, DistinctFixtures, DistinctRecords;
    assert forall m :: m in MembersOf(fm, rm, d1) <==> m in MembersOf(fm, rm, d2);
    ClusterListsAgree(MembersOf(fm, rm, d1), MembersOf(fm, rm, d2));
  }
}
