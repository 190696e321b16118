/** Attaching minimized counterexamples to a report (engine/src/lib.rs:159-186). */
module Engine {
  import opened Prelude
  import opened Types
  import opened Diff
  import opened Totals
  import opened Cluster
  import opened ClusterProperties
  import opened ClusterFacts
  import opened ClusterTotals
  import opened KeyMeaning
  import opened Reports
  import opened Shrink
  import opened Minimizer

  // ---- the target of one cluster ------------------------------------------------------------------------------

  /** What the search is asked to preserve for a cluster: nothing when a lookup fails. */
  function TargetFor(c: RegressionCluster, fixtures: seq<Fixture>, diffs: seq<StateDiff>): Option<(Fixture, ClusterKey)> {
    match (FindFixture(fixtures, c.representativeFixtureId), FindDiff(diffs, c.representativeFixtureId))
    case (Some(fixture), Some(diff)) =>
      (match Evaluate(fixture, diff)
       case Some(economics) => Some((fixture, Signature(fixture, diff, economics)))
       case None => None)
    case _ => None
  }

  /** Only the counterexample of a cluster may move. It moves to a minimized case, or to none where
      the representative cannot be shrunk. */
  ghost predicate Attached(before: RegressionCluster, after: RegressionCluster, fixtures: seq<Fixture>, diffs: seq<StateDiff>,
                           v1: Program, v2: Program, config: ShrinkConfig)
  {
    if !before.critical || TargetFor(before, fixtures, diffs) == None then after == before
    else
      && after == before.(minimizedCounterexample := after.minimizedCounterexample)
      && (var p := ProblemFor(before, fixtures, diffs, v1, v2, config);
          Sound(p)
          && (match after.minimizedCounterexample
              case Some(c) => Minimized(p, c)
              case None => NothingToShrink(p)))
  }

  function ProblemFor(c: RegressionCluster, fixtures: seq<Fixture>, diffs: seq<StateDiff>,
                      v1: Program, v2: Program, config: ShrinkConfig): Problem
    requires TargetFor(c, fixtures, diffs).Some?
  {
    var t := TargetFor(c, fixtures, diffs).value;
    Problem(t.0, t.1, v1, v2, config)
  }

  ghost predicate AttachedUpTo(before: seq<RegressionCluster>, after: seq<RegressionCluster>, n: nat, fixtures: seq<Fixture>,
                               diffs: seq<StateDiff>, v1: Program, v2: Program, config: ShrinkConfig)
  {
    && |after| == |before| && n <= |before|
    && (forall i :: 0 <= i < n ==> Attached(before[i], after[i], fixtures, diffs, v1, v2, config))
    && (forall i :: n <= i < |before| ==> after[i] == before[i])
  }

  lemma {:induction false} FoundFixture(fs: seq<Fixture>, id: string)
    ensures FindFixture(fs, id).Some? ==> FindFixture(fs, id).value in fs && FindFixture(fs, id).value.id == id
    ensures FindFixture(fs, id) == None ==> forall f :: f in fs ==> f.id != id
  {
    if fs != [] && fs[0].id != id { FoundFixture(fs[1..], id); }
  }

  /** The engine aborts on a representative it cannot edit; only clusters it minimizes matter. */
  ghost predicate Minimizable(c: RegressionCluster, fixtures: seq<Fixture>, diffs: seq<StateDiff>) {
    c.critical && TargetFor(c, fixtures, diffs).Some? ==> Editable(TargetFor(c, fixtures, diffs).value.0)
  }

  /** Minimizing the cluster can fail: a zero granularity, or a variant that cannot be executed or compared. */
  ghost predicate CanStop(c: RegressionCluster, fixtures: seq<Fixture>, diffs: seq<StateDiff>, v1: Program, v2: Program, config: ShrinkConfig) {
    && c.critical && TargetFor(c, fixtures, diffs).Some?
    && (var p := ProblemFor(c, fixtures, diffs, v1, v2, config);
        Editable(p.base) && (!Sound(p) || CanFail(p)))
  }

  /** Minimize for one cluster; an execution error aborts the whole pass. */
  method MinimizeOne(c: RegressionCluster, fixtures: seq<Fixture>, diffs: seq<StateDiff>, v1: Program, v2: Program, config: ShrinkConfig)
    returns (r: Result<RegressionCluster, string>)
    requires Minimizable(c, fixtures, diffs)
    ensures r.Ok? ==> Attached(c, r.value, fixtures, diffs, v1, v2, config)
    ensures r.Err? ==> CanStop(c, fixtures, diffs, v1, v2, config)
  {
    if !c.critical {
      return Ok(c);
    }
    hide Editable, Minimized, NothingToShrink, Evaluate, Signature, FindFixture, FindDiff, Sound, CanFail;
    var fixture := FindFixture(fixtures, c.representativeFixtureId);
    if fixture == None {
      return Ok(c);
    }
    var diff := FindDiff(diffs, c.representativeFixtureId);
    if diff == None {
      return Ok(c);
    }
    var economics := Evaluate(fixture.value, diff.value);
    if economics == None {
      return Ok(c);
    }
    var target := Signature(fixture.value, diff.value, economics.value);
    assert TargetFor(c, fixtures, diffs) == Some((fixture.value, target));
    assert Editable(fixture.value);
    hide *;
    var p := Problem(fixture.value, target, v1, v2, config);
    var minimized := Minimize(p);
    if minimized.Err? {
      StoppedBy(c, p, fixtures, diffs);
      return Err(minimized.error);
    }
    AttachedBy(c, p, minimized.value, fixtures, diffs);
    r := Ok(c.(minimizedCounterexample := minimized.value));
  }

  lemma AttachedBy(c: RegressionCluster, p: Problem, minimized: Option<MinimizedCase>, fixtures: seq<Fixture>, diffs: seq<StateDiff>)
    requires c.critical && TargetFor(c, fixtures, diffs) == Some((p.base, p.target)) && Sound(p)
    requires minimized.Some? ==> Minimized(p, minimized.value)
    requires minimized == None ==> NothingToShrink(p)
    ensures Attached(c, c.(minimizedCounterexample := minimized), fixtures, diffs, p.v1, p.v2, p.config)
  {
    hide TargetFor, Sound, Minimized, NothingToShrink;
  }

  lemma StoppedBy(c: RegressionCluster, p: Problem, fixtures: seq<Fixture>, diffs: seq<StateDiff>)
    requires c.critical && TargetFor(c, fixtures, diffs) == Some((p.base, p.target))
    requires Editable(p.base) && (!Sound(p) || CanFail(p))
    ensures CanStop(c, fixtures, diffs, p.v1, p.v2, p.config)
  {
    hide TargetFor, Sound, Editable, CanFail;
  }

  /** Fill in minimized counterexamples for every critical cluster of a report. An error stops the pass
      at the cluster it arose from. */
  method MinimizeClusters(report: Report, fixtures: seq<Fixture>, v1: Program, v2: Program, config: ShrinkConfig)
    returns (r: Option<string>)
    requires forall c :: c in report.clusters ==> Minimizable(c, fixtures, report.diffs)
    modifies report`clusters
    ensures r == None ==>
      AttachedUpTo(old(report.clusters), report.clusters, |old(report.clusters)|, fixtures, report.diffs, v1, v2, config)
    ensures r.Some? ==> exists n: nat ::
      AttachedUpTo(old(report.clusters), report.clusters, n, fixtures, report.diffs, v1, v2, config)
      && n < |old(report.clusters)| && CanStop(old(report.clusters)[n], fixtures, report.diffs, v1, v2, config)
  {
    ghost var before := report.clusters;
    for index := 0 to |report.clusters|
      invariant AttachedUpTo(before, report.clusters, index, fixtures, report.diffs, v1, v2, config)
    {
      hide Attached, Minimizable, CanStop;
      var c := MinimizeOne(report.clusters[index], fixtures, report.diffs, v1, v2, config);
      if c.Err? {
        return Some(c.error);
      }
      report.clusters := report.clusters[index := c.value];
    }
    r := None;
  }

  // ---- what the attached case shows -----------------------------------------------------------------------------

  lemma FindsTheFixture(fs: seq<Fixture>, id: string)
    requires DistinctFixtures(fs) && id in FixturesById(fs)
    ensures FindFixture(fs, id) == Some(FixturesById(fs)[id])
  {
    FoundFixture(fs, id);
    FixtureIds(fs);
    hide DistinctFixtures, FindFixture, FixturesById;
  }

  lemma FindsTheDiff(ds: seq<StateDiff>, d: StateDiff)
    requires DistinctDiffs(ds) && d in ds
    ensures FindDiff(ds, d.fixtureId) == Some(d)
  {
  }

  lemma TargetIsMemberKey(fs: seq<Fixture>, ds: seq<StateDiff>, c: RegressionCluster, m: Member)
    requires DistinctFixtures(fs) && DistinctDiffs(ds)
    requires m in MembersOf(FixturesById(fs), RecordsById(EvaluateAll(fs, ds)), ds)
    requires MemberId(m) == c.representativeFixtureId
    ensures TargetFor(c, fs, ds) == Some((m.fixture, m.Key()))
  {
    var fm := FixturesById(fs);
    var rm := RecordsById(EvaluateAll(fs, ds));
    assert MemberId(m) == m.fixture.id;
    MembersAre(fm, rm, ds);
    FixtureIds(fs);
    MemberIsRecorded(fm, rm, m);
    assert MemberOf(fm, rm, m.diff) == [m];
    RecordsAnswer(fm, ds, m.diff);
    assert Answers(fm, rm, m.diff) ==> RecordFor(fm, m.diff) == [m.economics];
    hide *;
    FindsTheFixture(fs, m.fixture.id);
    FindsTheDiff(ds, m.diff);
    RecordIsEvaluation(fm, m.diff, m.economics);
    TargetMeans(fs, ds, c, m);
  }

  lemma TargetMeans(fs: seq<Fixture>, ds: seq<StateDiff>, c: RegressionCluster, m: Member)
    requires FindFixture(fs, c.representativeFixtureId) == Some(m.fixture)
    requires FindDiff(ds, c.representativeFixtureId) == Some(m.diff)
    requires Evaluate(m.fixture, m.diff) == Some(m.economics)
    ensures TargetFor(c, fs, ds) == Some((m.fixture, m.Key()))
  {
    hide FindFixture, FindDiff, Evaluate, Signature;
  }

  lemma MemberIsRecorded(fm: map<string, Fixture>, rm: map<string, FixtureEconomics>, m: Member)
    requires KeyedById(fm) && MemberOf(fm, rm, m.diff) == [m]
    ensures m.diff.fixtureId in fm && m.diff.fixtureId in rm
    ensures m.fixture == fm[m.diff.fixtureId] && m.economics == rm[m.diff.fixtureId] && m.fixture.id == m.diff.fixtureId
  {
  }

  lemma RecordIsEvaluation(fm: map<string, Fixture>, d: StateDiff, e: FixtureEconomics)
    requires RecordFor(fm, d) == [e]
    ensures d.fixtureId in fm && Evaluate(fm[d.fixtureId], d) == Some(e)
  {
    hide Evaluate;
  }

  lemma ClustersAre(fs: seq<Fixture>, ds: seq<StateDiff>)
    ensures KeyedById(FixturesById(fs))
    ensures Clusters(fs, ds, EvaluateAll(fs, ds)) == ClustersOf(MembersOf(FixturesById(fs), RecordsById(EvaluateAll(fs, ds)), ds))
  {
    FixtureIds(fs);
    assert KeyedById(FixturesById(fs));
    hide FixturesById, EvaluateAll, RecordsById, MembersOf, ClustersOf;
  }

  /** The regression class a minimized case reproduces is the class of every member of its cluster. */
  lemma MinimizedCaseSpeaksForCluster(fs: seq<Fixture>, ds: seq<StateDiff>, before: RegressionCluster, after: RegressionCluster,
                                      v1: Program, v2: Program, config: ShrinkConfig, m: Member)
    requires DistinctFixtures(fs) && DistinctDiffs(ds)
    requires before in Clusters(fs, ds, EvaluateAll(fs, ds)) && Attached(before, after, fs, ds, v1, v2, config)
    requires after.minimizedCounterexample.Some?
    requires m in MembersOf(FixturesById(fs), RecordsById(EvaluateAll(fs, ds)), ds) && MemberId(m) in before.fixtureIds
    ensures TargetFor(before, fs, ds).Some?
    ensures var case_, base := after.minimizedCounterexample.value, TargetFor(before, fs, ds).value.0;
      && base.id == before.representativeFixtureId
      && Editable(base)
      && VariantOf(base, case_.collateralLamports, case_.debtMicroUsd).Some?
      && ObservedClass(VariantOf(base, case_.collateralLamports, case_.debtMicroUsd).value, v1, v2) == Ok(Some(m.Key()))
  {
    var ms := MembersOf(FixturesById(fs), RecordsById(EvaluateAll(fs, ds)), ds);
    hide *;
    ClustersAre(fs, ds);
    MembersAreDistinct(FixturesById(fs), RecordsById(EvaluateAll(fs, ds)), ds);
    var i := ClusterIndex(ms, before);
    var key := SortedKeys(KeysOf(ms))[i];
    var x := RepresentativeMember(before, ms, key);
    SpeakerKey(before, ms, key, m);
    TargetIsMemberKey(fs, ds, before, x);
    FreshCluster(before, ms, key);
    AttachedCase(before, after, fs, ds, v1, v2, config);
  }

  /** Both builds run the fixture, and what they show on it is the finding of `m`: the same consequences,
      sorts of differences, changed fields, outcomes and liquidation status changes. */
  ghost predicate ShowsFinding(fixture: Fixture, v1: Program, v2: Program, m: Member) {
    && v1(fixture).Ok? && v2(fixture).Ok? && Completes(v1(fixture).value, v2(fixture).value)
    && (var diff := DiffOf(fixture, v1(fixture).value, v2(fixture).value, FixtureLending);
        Evaluate(fixture, diff).Some? && SameFinding(Member(fixture, diff, Evaluate(fixture, diff).value), m))
  }

  lemma ObservedIsShown(fixture: Fixture, v1: Program, v2: Program, m: Member)
    requires ObservedClass(fixture, v1, v2) == Ok(Some(m.Key()))
    ensures ShowsFinding(fixture, v1, v2, m)
  {
    var diff := DiffOf(fixture, v1(fixture).value, v2(fixture).value, FixtureLending);
    KeysAgreeWhen(Member(fixture, diff, Evaluate(fixture, diff).value), m);
    hide Completes, DiffOf, Evaluate, SameFinding, Signature;
  }

  /** The minimized case attached to a cluster shows the finding of each of the cluster's members. */
  lemma MinimizedCaseShowsTheFinding(fs: seq<Fixture>, ds: seq<StateDiff>, before: RegressionCluster, after: RegressionCluster,
                                     v1: Program, v2: Program, config: ShrinkConfig, m: Member)
    requires DistinctFixtures(fs) && DistinctDiffs(ds)
    requires before in Clusters(fs, ds, EvaluateAll(fs, ds)) && Attached(before, after, fs, ds, v1, v2, config)
    requires after.minimizedCounterexample.Some?
    requires m in MembersOf(FixturesById(fs), RecordsById(EvaluateAll(fs, ds)), ds) && MemberId(m) in before.fixtureIds
    ensures TargetFor(before, fs, ds).Some?
    ensures var case_, base := after.minimizedCounterexample.value, TargetFor(before, fs, ds).value.0;
      && base.id == before.representativeFixtureId
      && Editable(base)
      && VariantOf(base, case_.collateralLamports, case_.debtMicroUsd).Some?
      && ShowsFinding(VariantOf(base, case_.collateralLamports, case_.debtMicroUsd).value, v1, v2, m)
  {
    hide *;
    MinimizedCaseSpeaksForCluster(fs, ds, before, after, v1, v2, config, m);
    var case_, base := after.minimizedCounterexample.value, TargetFor(before, fs, ds).value.0;
    ObservedIsShown(VariantOf(base, case_.collateralLamports, case_.debtMicroUsd).value, v1, v2, m);
  }

  lemma FreshCluster(c: RegressionCluster, ms: seq<Member>, key: ClusterKey)
    requires SpeaksFor(c, ms, key)
    ensures c.minimizedCounterexample == None
  {
  }

  lemma RepresentativeMember(c: RegressionCluster, ms: seq<Member>, key: ClusterKey) returns (m: Member)
    requires SpeaksFor(c, ms, key)
    ensures m in ms && m.Key() == key && MemberId(m) == m.fixture.id == c.representativeFixtureId
  {
    hide Member.Key, KeysOf;
    m :| m in ms && m.Key() == key && MemberId(m) == c.representativeFixtureId;
  }

  lemma AttachedCase(before: RegressionCluster, after: RegressionCluster, fs: seq<Fixture>, ds: seq<StateDiff>,
                     v1: Program, v2: Program, config: ShrinkConfig)
    requires Attached(before, after, fs, ds, v1, v2, config)
    requires before.minimizedCounterexample == None && after.minimizedCounterexample.Some?
    requires TargetFor(before, fs, ds).Some?
    ensures var c, t := after.minimizedCounterexample.value, TargetFor(before, fs, ds).value;
      && Editable(t.0)
      && VariantOf(t.0, c.collateralLamports, c.debtMicroUsd).Some?
      && ObservedClass(VariantOf(t.0, c.collateralLamports, c.debtMicroUsd).value, v1, v2) == Ok(Some(t.1))
  {
    hide TargetFor, VariantOf, ObservedClass, LocallyMinimal, CaseFor, ReadPosition, Granules;
  }
}
