/** When two findings belong together, stated on the findings themselves (engine/src/cluster.rs:113-178). */
module KeyMeaning {
  import opened Prelude
  import opened Types
  import opened Order
  import opened Diff
  import opened DiffProperties
  import opened Impact
  import opened Totals
  import opened Cluster
  import opened ClusterProperties
  import opened ClusterFacts
  import T = ClusterTotals
  import I = Interpret

  // ---- what two findings have to agree on --------------------------------------------------------------

  predicate SameSort(a: Difference, b: Difference) {
    || (a.SuccessChanged? && b.SuccessChanged?)
    || (a.LiquidationStatusChanged? && b.LiquidationStatusChanged?)
    || (a.FieldChanged? && b.FieldChanged?)
    || (a.RawDataChanged? && b.RawDataChanged?)
    || (a.BalanceChanged? && b.BalanceChanged?)
    || (a.CpiChanged? && b.CpiChanged?)
    || (a.ComputeChanged? && b.ComputeChanged?)
  }

  ghost predicate Matched(ds: seq<Difference>, d: Difference) {
    exists e :: e in ds && SameSort(e, d)
  }

  /** Each behavioural difference of `a` has one of its sort in `b`. */
  ghost predicate KindsWithin(a: seq<Difference>, b: seq<Difference>) {
    forall d :: d in a && !d.ComputeChanged? ==> Matched(b, d)
  }

  /** The same sorts of differences occur, compute aside, however often. */
  ghost predicate SameKinds(a: seq<Difference>, b: seq<Difference>) {
    KindsWithin(a, b) && KindsWithin(b, a)
  }

  /** A field of that name, its account and a dot before it, is reported as changed. */
  ghost predicate FieldMoves(ds: seq<Difference>, name: string) {
    exists d :: d in ds && d.FieldChanged? && d.account + "." + d.field == name
  }

  ghost predicate SameFields(a: seq<Difference>, b: seq<Difference>) {
    forall name :: FieldMoves(a, name) <==> FieldMoves(b, name)
  }

  /** The liquidation status changes, as account, before and after, each as often as it is reported. */
  ghost function Crossings(ds: seq<Difference>): multiset<(string, bool, bool)> {
    if ds == [] then multiset{}
    else (if ds[0].LiquidationStatusChanged? then multiset{(ds[0].account, ds[0].was, ds[0].now)} else multiset{}) + Crossings(ds[1..])
  }

  ghost predicate SameFinding(a: Member, b: Member) {
    && a.economics.consequences == b.economics.consequences
    && I.InstructionName(a.fixture.instruction.data) == I.InstructionName(b.fixture.instruction.data)
    && SameKinds(a.diff.differences, b.diff.differences)
    && SameFields(a.diff.differences, b.diff.differences)
    && a.diff.v1.success == b.diff.v1.success && a.diff.v2.success == b.diff.v2.success
    && Crossings(a.diff.differences) == Crossings(b.diff.differences)
  }

  // ---- component by component ------------------------------------------------------------------------------

  lemma KindsDiffer(a: Difference, b: Difference)
    ensures a.Kind() == b.Kind() <==> SameSort(a, b)
  {
    assert "success_changed"[0] != "balance_changed"[0] && "success_changed"[0] != "compute_changed"[0];
    assert "balance_changed"[0] != "compute_changed"[0];
  }

  function KindSet(ds: seq<Difference>): set<string> {
    set d | d in ds :: d.Kind()
  }

  function FieldSet(ds: seq<Difference>): set<string> {
    set d | d in ds && d.FieldChanged? :: d.account + "." + d.field
  }

  lemma KindListed(ds: seq<Difference>, d: Difference)
    requires !d.ComputeChanged?
    ensures d.Kind() in KindSet(Outcomes(ds)) <==> Matched(ds, d)
  {
    OutcomesMembers(ds);
    hide Outcomes;
    if d.Kind() in KindSet(Outcomes(ds)) {
      var e :| e in Outcomes(ds) && e.Kind() == d.Kind();
      KindsDiffer(e, d);
    }
    if Matched(ds, d) {
      var e :| e in ds && SameSort(e, d);
      KindsDiffer(e, d);
      assert e in Outcomes(ds);
    }
  }

  lemma KindsSubset(a: seq<Difference>, b: seq<Difference>)
    ensures KindSet(Outcomes(a)) <= KindSet(Outcomes(b)) <==> KindsWithin(a, b)
  {
    OutcomesMembers(a);
    hide Outcomes, Difference.Kind, Matched;
    if KindsWithin(a, b) {
      forall d | d in Outcomes(a) ensures d.Kind() in KindSet(Outcomes(b)) {
        KindListed(b, d);
      }
    }
    if KindSet(Outcomes(a)) <= KindSet(Outcomes(b)) {
      forall d | d in a && !d.ComputeChanged? ensures Matched(b, d) {
        assert d in Outcomes(a) && d.Kind() in KindSet(Outcomes(a));
        KindListed(b, d);
      }
    }
  }

  lemma FieldListed(ds: seq<Difference>, name: string)
    ensures name in FieldSet(Outcomes(ds)) <==> FieldMoves(ds, name)
  {
    OutcomesMembers(ds);
    hide Outcomes;
    if FieldMoves(ds, name) {
      var d :| d in ds && d.FieldChanged? && d.account + "." + d.field == name;
      assert d in Outcomes(ds);
    }
  }

  lemma FieldSetsAgree(a: seq<Difference>, b: seq<Difference>)
    ensures FieldSet(Outcomes(a)) == FieldSet(Outcomes(b)) <==> SameFields(a, b)
  {
    hide Outcomes, FieldSet, FieldMoves;
    forall name
      ensures name in FieldSet(Outcomes(a)) <==> FieldMoves(a, name)
      ensures name in FieldSet(Outcomes(b)) <==> FieldMoves(b, name)
    {
      FieldListed(a, name);
      FieldListed(b, name);
    }
  }

  lemma {:induction false} CrossingsCount(ds: seq<Difference>, account: string, was: bool, now: bool)
    ensures multiset(Transitions(ds))[Transition(account, was, now)] == Crossings(ds)[(account, was, now)]
  {
    if ds != [] {
      CrossingsCount(ds[1..], account, was, now);
    }
  }

  lemma {:induction false} CrossingsIgnoreCompute(ds: seq<Difference>)
    ensures Crossings(Outcomes(ds)) == Crossings(ds)
  {
    if ds != [] {
      CrossingsIgnoreCompute(ds[1..]);
      if !ds[0].ComputeChanged? {
        assert ([ds[0]] + Outcomes(ds[1..]))[1..] == Outcomes(ds[1..]);
      } else {
        assert [] + Outcomes(ds[1..]) == Outcomes(ds[1..]);
      }
    }
  }

  lemma TransitionsMatch(a: seq<Difference>, b: seq<Difference>)
    ensures multiset(Transitions(a)) == multiset(Transitions(b)) <==> Crossings(a) == Crossings(b)
  {
    hide Transitions, Crossings;
    var x, y := Transitions(a), Transitions(b);
    if Crossings(a) == Crossings(b) {
      forall t: Transition ensures multiset(x)[t] == multiset(y)[t] {
        CrossingsCount(a, t.account, t.was, t.now);
        CrossingsCount(b, t.account, t.was, t.now);
      }
      assert multiset(x) == multiset(y);
    }
    if multiset(x) == multiset(y) {
      forall c: (string, bool, bool) ensures Crossings(a)[c] == Crossings(b)[c] {
        CrossingsCount(a, c.0, c.1, c.2);
        CrossingsCount(b, c.0, c.1, c.2);
      }
      assert Crossings(a) == Crossings(b);
    }
  }

  // ---- the class of a finding --------------------------------------------------------------------------------

  /** Two findings have one key exactly when they agree on their consequences, the instruction, the sorts of
      behavioural differences, the fields that moved, both outcomes and the liquidation status changes. */
  lemma KeysAgreeWhen(a: Member, b: Member)
    ensures a.Key() == b.Key() <==> SameFinding(a, b)
  {
    var ds, es := a.diff.differences, b.diff.differences;
    var x, y := Outcomes(ds), Outcomes(es);
    KindsSubset(ds, es);
    KindsSubset(es, ds);
    AscendingStringsAgree(KindSet(x), KindSet(y));
    assert OutcomeKinds(x) == AscendingStrings(KindSet(x)) && OutcomeKinds(y) == AscendingStrings(KindSet(y));
    FieldSetsAgree(ds, es);
    AscendingStringsAgree(FieldSet(x), FieldSet(y));
    assert ChangedFields(x) == AscendingStrings(FieldSet(x)) && ChangedFields(y) == AscendingStrings(FieldSet(y));
    TransitionsTotal();
    SortsAgree(TransitionOrder(), Transitions(x), Transitions(y));
    TransitionsMatch(x, y);
    CrossingsIgnoreCompute(ds);
    CrossingsIgnoreCompute(es);
    hide Outcomes, OutcomeKinds, ChangedFields, Transitions, Crossings, KindsWithin, SameFields, KindSet, FieldSet, AscendingStrings, Sort,
         TransitionOrder, I.InstructionName, TotalOrder;
  }

  lemma KindShown(m: Member, d: Difference)
    requires !d.ComputeChanged?
    ensures d.Kind() in m.Key().differenceKinds <==> Matched(m.diff.differences, d)
  {
    var kinds := KindSet(Outcomes(m.diff.differences));
    AscendingStringsMembers(kinds);
    KindListed(m.diff.differences, d);
    assert m.Key().differenceKinds == AscendingStrings(kinds);
    hide *;
  }

  lemma MatchedMeans(ds: seq<Difference>)
    ensures Matched(ds, SuccessChanged(true, true, None, None)) <==> exists d :: d in ds && d.SuccessChanged?
    ensures Matched(ds, LiquidationStatusChanged("", true, true, "", "")) <==> exists d :: d in ds && d.LiquidationStatusChanged?
    ensures Matched(ds, FieldChanged("", "", "", "", None, None)) <==> exists d :: d in ds && d.FieldChanged?
    ensures Matched(ds, RawDataChanged("", 0, "", "")) <==> exists d :: d in ds && d.RawDataChanged?
    ensures Matched(ds, BalanceChanged("", 0, 0, 0)) <==> exists d :: d in ds && d.BalanceChanged?
    ensures Matched(ds, CpiChanged([], [])) <==> exists d :: d in ds && d.CpiChanged?
  {
  }

  /** What the lists in a key say: the sorts of behavioural differences by name, and the fields that moved. */
  lemma KeyLists(m: Member, field: string)
    ensures var ds, kinds := m.diff.differences, m.Key().differenceKinds;
      && ("success_changed" in kinds <==> exists d :: d in ds && d.SuccessChanged?)
      && ("liquidation_status_changed" in kinds <==> exists d :: d in ds && d.LiquidationStatusChanged?)
      && ("field_changed" in kinds <==> exists d :: d in ds && d.FieldChanged?)
      && ("raw_data_changed" in kinds <==> exists d :: d in ds && d.RawDataChanged?)
      && ("balance_changed" in kinds <==> exists d :: d in ds && d.BalanceChanged?)
      && ("cpi_changed" in kinds <==> exists d :: d in ds && d.CpiChanged?)
    ensures field in m.Key().changedFields <==> FieldMoves(m.diff.differences, field)
  {
    var ds := m.diff.differences;
    assert m.Key().changedFields == AscendingStrings(FieldSet(Outcomes(ds)));
    MatchedMeans(ds);
    hide Member.Key, Outcomes, KindSet, FieldSet, AscendingStrings, FieldMoves, Matched;
    AscendingStringsMembers(FieldSet(Outcomes(ds)));
    FieldListed(ds, field);
    KindShown(m, SuccessChanged(true, true, None, None));
    KindShown(m, LiquidationStatusChanged("", true, true, "", ""));
    KindShown(m, FieldChanged("", "", "", "", None, None));
    KindShown(m, RawDataChanged("", 0, "", ""));
    KindShown(m, BalanceChanged("", 0, 0, 0));
    KindShown(m, CpiChanged([], []));
  }

  /** They are listed in one cluster exactly then. */
  lemma ClusterMatesAgree(ms: seq<Member>, a: Member, b: Member)
    requires DistinctMembers(ms) && a in ms && b in ms
    ensures SameFinding(a, b) <==> exists c :: c in ClustersOf(ms) && MemberId(a) in c.fixtureIds && MemberId(b) in c.fixtureIds
  {
    KeysAgreeWhen(a, b);
    hide SameFinding, ClustersOf, Member.Key;
    if a.Key() == b.Key() {
      EveryFindingIsListed(ms, a);
      var c :| c in ClustersOf(ms) && SpeaksFor(c, ms, a.Key());
      assert MemberId(a) in c.fixtureIds && MemberId(b) in c.fixtureIds;
    }
    forall c | c in ClustersOf(ms) && MemberId(a) in c.fixtureIds && MemberId(b) in c.fixtureIds ensures a.Key() == b.Key() {
      EveryClusterSpeaks(ms, c);
      var key :| SpeaksFor(c, ms, key);
      T.SpeakerKey(c, ms, key, a);
      T.SpeakerKey(c, ms, key, b);
    }
  }
}
