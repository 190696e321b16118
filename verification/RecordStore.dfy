/** Counterexamples and reproductions (cloud/src/api.rs:608-751): each request reads its parent, then
    inserts, with no transaction around the two. Other requests and run syncs interleave freely. */
module RecordStore {
  import opened RunStore

  datatype CounterexampleKey = CounterexampleKey(project: string, id: string)

  datatype ReproductionKey = ReproductionKey(project: string, id: string)

  datatype Counterexample = Counterexample(key: CounterexampleKey, run: string, localProject: string, digest: string, text: string)

  datatype Reproduction = Reproduction(key: ReproductionKey, counterexample: string, localProject: string, digest: string, text: string)

  function RunOf(c: Counterexample): Key {
    Key(c.key.project, c.run)
  }

  function ParentOf(r: Reproduction): CounterexampleKey {
    CounterexampleKey(r.key.project, r.counterexample)
  }

  /** The contract checks the server runs between a record and its parent. */
  datatype Rules = Rules(bindCounterexample: (Counterexample, Row) -> bool, bindReproduction: (Reproduction, string) -> bool)

  datatype Reply = Stored | AlreadyStored | Differs | Invalid

  datatype Request = OfCounterexample(c: Counterexample) | OfReproduction(r: Reproduction)

  datatype Phase = Fresh | Checked | Collided | Replied(reply: Reply)

  datatype Call = Call(request: Request, phase: Phase)

  datatype State = State(
    store: Store, counterexamples: map<CounterexampleKey, Counterexample>,
    reproductions: map<ReproductionKey, Reproduction>, calls: map<nat, Call>)

  datatype Step =
    | Begin(t: nat, request: Request)
    | CheckParent(t: nat)
    | Insert(t: nat)
    | Compare(t: nat)
    | Drop(t: nat)
    | SyncRun(doc: Document)

  // ---- the statements of a request ---------------------------------------------------------------------

  /** The parent read: it must exist, come from the same local project, and bind. */
  predicate ParentAccepts(rules: Rules, s: State, request: Request) {
    match request
    case OfCounterexample(c) =>
      RunOf(c) in s.store.runs
      && s.store.runs[RunOf(c)].localProject == c.localProject
      && rules.bindCounterexample(c, s.store.runs[RunOf(c)])
    case OfReproduction(r) =>
      ParentOf(r) in s.counterexamples
      && (var parent := s.counterexamples[ParentOf(r)];
          RunOf(parent) in s.store.runs
          && s.store.runs[RunOf(parent)].localProject == r.localProject
          && rules.bindReproduction(r, parent.text))
  }

  predicate Exists(s: State, request: Request) {
    match request
    case OfCounterexample(c) => c.key in s.counterexamples
    case OfReproduction(r) => r.key in s.reproductions
  }

  function StoredDigest(s: State, request: Request): string
    requires Exists(s, request)
  {
    match request
    case OfCounterexample(c) => s.counterexamples[c.key].digest
    case OfReproduction(r) => s.reproductions[r.key].digest
  }

  function SentDigest(request: Request): string {
    match request
    case OfCounterexample(c) => c.digest
    case OfReproduction(r) => r.digest
  }

  /** The foreign key of the row about to be inserted. */
  predicate ParentExists(s: State, request: Request) {
    match request
    case OfCounterexample(c) => RunOf(c) in s.store.runs
    case OfReproduction(r) => ParentOf(r) in s.counterexamples
  }

  predicate Enabled(s: State, step: Step) {
    match step
    case Begin(t, _) => t !in s.calls
    case CheckParent(t) => t in s.calls && s.calls[t].phase.Fresh?
    case Insert(t) => t in s.calls && s.calls[t].phase.Checked?
    case Compare(t) => t in s.calls && s.calls[t].phase.Collided? && Exists(s, s.calls[t].request)
    case Drop(t) => t in s.calls && !s.calls[t].phase.Replied?
    case SyncRun(_) => true
  }

  function To(s: State, t: nat, phase: Phase): State
    requires t in s.calls
  {
    s.(calls := s.calls[t := s.calls[t].(phase := phase)])
  }

  function WithRecord(s: State, request: Request): State {
    match request
    case OfCounterexample(c) => s.(counterexamples := s.counterexamples[c.key := c])
    case OfReproduction(r) => s.(reproductions := s.reproductions[r.key := r])
  }

  function After(rules: Rules, s: State, step: Step): State
    requires Enabled(s, step)
  {
    match step
    case Begin(t, request) => s.(calls := s.calls[t := Call(request, Fresh)])
    case CheckParent(t) => To(s, t, if ParentAccepts(rules, s, s.calls[t].request) then Checked else Replied(Invalid))
    case Insert(t) =>
      var request := s.calls[t].request;
      if Exists(s, request) then To(s, t, Collided)
      else if !ParentExists(s, request) then To(s, t, Replied(Invalid))
      else To(WithRecord(s, request), t, Replied(Stored))
    case Compare(t) =>
      var request := s.calls[t].request;
      To(s, t, Replied(if StoredDigest(s, request) == SentDigest(request) then AlreadyStored else Differs))
    case Drop(t) => s.(calls := s.calls - {t})
    case SyncRun(doc) => s.(store := Synced(s.store, doc))
  }

  // ---- what holds in every reachable state -------------------------------------------------------------------

  /** The parent check passed on an earlier version of the parent run, and still passes but for a
      search result the run may have gained since. */
  ghost predicate StillBound(rules: Rules, s: State, request: Request) {
    match request
    case OfCounterexample(c) =>
      RunOf(c) in s.store.runs
      && s.store.runs[RunOf(c)].localProject == c.localProject
      && BoundEarlier(rules, c, s.store.runs[RunOf(c)])
    case OfReproduction(r) =>
      ParentOf(r) in s.counterexamples
      && RunOf(s.counterexamples[ParentOf(r)]) in s.store.runs
      && s.store.runs[RunOf(s.counterexamples[ParentOf(r)])].localProject == r.localProject
      && rules.bindReproduction(r, s.counterexamples[ParentOf(r)].text)
  }

  ghost predicate BoundEarlier(rules: Rules, c: Counterexample, row: Row) {
    exists before: Row :: UpdateAllowed(before, row) && rules.bindCounterexample(c, before)
  }

  predicate PastCheck(call: Call) {
    call.phase.Checked? || call.phase.Collided?
  }

  ghost predicate RecordsOk(rules: Rules, s: State) {
    && (forall k :: k in s.counterexamples ==>
          s.counterexamples[k].key == k && StillBound(rules, s, OfCounterexample(s.counterexamples[k])))
    && (forall k :: k in s.reproductions ==>
          s.reproductions[k].key == k && StillBound(rules, s, OfReproduction(s.reproductions[k])))
  }

  ghost predicate CallsOk(rules: Rules, s: State) {
    forall t :: t in s.calls ==>
      && (PastCheck(s.calls[t]) ==> StillBound(rules, s, s.calls[t].request))
      && (s.calls[t].phase.Collided? ==> Exists(s, s.calls[t].request))
  }

  ghost predicate Inv(rules: Rules, s: State) {
    RecordsOk(rules, s) && CallsOk(rules, s)
  }

  /** `b` is a later state: runs extended, records added, none removed or changed. */
  ghost predicate Later(a: State, b: State) {
    && Extends(a.store, b.store)
    && (forall k :: k in a.counterexamples ==> k in b.counterexamples && b.counterexamples[k] == a.counterexamples[k])
    && (forall k :: k in a.reproductions ==> k in b.reproductions && b.reproductions[k] == a.reproductions[k])
  }

  lemma LaterReflexive(s: State)
    ensures Later(s, s)
  {
  }

  lemma LaterTransitive(a: State, b: State, c: State)
    requires Later(a, b) && Later(b, c)
    ensures Later(a, c)
  {
  }

  /** No step removes, rewrites or re-homes a run or a record. */
  lemma StepsOnlyAdd(rules: Rules, s: State, step: Step)
    requires Enabled(s, step)
    ensures Later(s, After(rules, s, step))
  {
    if step.SyncRun? { SyncExtends(s.store, step.doc); }
    assert Extends(s.store, s.store);
    hide Extends, Synced, ParentAccepts, StoredDigest, SentDigest, ParentExists;
  }

  lemma BoundStays(rules: Rules, a: State, b: State, request: Request)
    requires Later(a, b) && StillBound(rules, a, request)
    ensures StillBound(rules, b, request)
  {
  }

  lemma AcceptedIsBound(rules: Rules, s: State, request: Request)
    requires ParentAccepts(rules, s, request)
    ensures StillBound(rules, s, request)
  {
  }

  /** Where a record came from. */
  lemma RecordsAfter(rules: Rules, s: State, step: Step)
    requires Enabled(s, step)
    ensures var next := After(rules, s, step);
      && (forall k :: k in next.counterexamples ==>
            (k in s.counterexamples && next.counterexamples[k] == s.counterexamples[k])
            || (InsertedBy(s, step, OfCounterexample(next.counterexamples[k])) && next.counterexamples[k].key == k))
      && (forall k :: k in next.reproductions ==>
            (k in s.reproductions && next.reproductions[k] == s.reproductions[k])
            || (InsertedBy(s, step, OfReproduction(next.reproductions[k])) && next.reproductions[k].key == k))
  {
  }

  predicate InsertedBy(s: State, step: Step, request: Request) {
    step.Insert? && step.t in s.calls && s.calls[step.t].phase.Checked? && s.calls[step.t].request == request
  }

  lemma InsertedIsBound(rules: Rules, s: State, step: Step, request: Request)
    requires Inv(rules, s) && InsertedBy(s, step, request)
    ensures StillBound(rules, s, request)
  {
    assert PastCheck(s.calls[step.t]);
    hide StillBound, RecordsOk;
  }

  lemma CounterexampleKept(rules: Rules, s: State, step: Step, k: CounterexampleKey)
    requires Inv(rules, s) && Enabled(s, step) && k in After(rules, s, step).counterexamples
    ensures var next := After(rules, s, step);
      next.counterexamples[k].key == k && StillBound(rules, next, OfCounterexample(next.counterexamples[k]))
  {
    var c := OfCounterexample(After(rules, s, step).counterexamples[k]);
    RecordsAfter(rules, s, step);
    StepsOnlyAdd(rules, s, step);
    hide StillBound, Later, After, InsertedBy, CallsOk, Enabled;
    if InsertedBy(s, step, c) { InsertedIsBound(rules, s, step, c); }
    BoundStays(rules, s, After(rules, s, step), c);
  }

  lemma ReproductionKept(rules: Rules, s: State, step: Step, k: ReproductionKey)
    requires Inv(rules, s) && Enabled(s, step) && k in After(rules, s, step).reproductions
    ensures var next := After(rules, s, step);
      next.reproductions[k].key == k && StillBound(rules, next, OfReproduction(next.reproductions[k]))
  {
    var r := OfReproduction(After(rules, s, step).reproductions[k]);
    RecordsAfter(rules, s, step);
    StepsOnlyAdd(rules, s, step);
    hide StillBound, Later, After, InsertedBy, CallsOk, Enabled;
    if InsertedBy(s, step, r) { InsertedIsBound(rules, s, step, r); }
    BoundStays(rules, s, After(rules, s, step), r);
  }

  lemma RecordsKept(rules: Rules, s: State, step: Step)
    requires Inv(rules, s) && Enabled(s, step)
    ensures RecordsOk(rules, After(rules, s, step))
  {
    hide StillBound, After, Inv, Enabled;
    var next := After(rules, s, step);
    forall k | k in next.counterexamples
      ensures next.counterexamples[k].key == k && StillBound(rules, next, OfCounterexample(next.counterexamples[k]))
    {
      CounterexampleKept(rules, s, step, k);
    }
    forall k | k in next.reproductions
      ensures next.reproductions[k].key == k && StillBound(rules, next, OfReproduction(next.reproductions[k]))
    {
      ReproductionKept(rules, s, step, k);
    }
  }

  /** Which calls are past their check after a step. */
  lemma CallsAfter(rules: Rules, s: State, step: Step)
    requires Enabled(s, step)
    ensures var next := After(rules, s, step);
      && (forall t :: t in next.calls && PastCheck(next.calls[t]) ==>
            t in s.calls && next.calls[t].request == s.calls[t].request
            && (PastCheck(s.calls[t]) || ParentAccepts(rules, s, s.calls[t].request)))
      && (forall t :: t in next.calls && next.calls[t].phase.Collided? ==>
            t in s.calls && (s.calls[t].phase.Collided? || Exists(s, s.calls[t].request)))
      && (forall request :: Exists(s, request) ==> Exists(next, request))
  {
    hide ParentAccepts, StoredDigest, SentDigest, Synced, ParentExists;
  }

  lemma CallsKept(rules: Rules, s: State, step: Step)
    requires Inv(rules, s) && Enabled(s, step)
    ensures CallsOk(rules, After(rules, s, step))
  {
    var next := After(rules, s, step);
    StepsOnlyAdd(rules, s, step);
    CallsAfter(rules, s, step);
    hide After, StillBound, Later, ParentAccepts, RecordsOk, Exists;
    forall t | t in next.calls && PastCheck(next.calls[t]) ensures StillBound(rules, next, next.calls[t].request) {
      if !PastCheck(s.calls[t]) {
        AcceptedIsBound(rules, s, s.calls[t].request);
      }
      BoundStays(rules, s, next, next.calls[t].request);
    }
  }

  /** The check cannot be overtaken: when the insert runs, its parent is still there, so no request
      ever fails on a foreign key. */
  lemma InsertFindsParent(rules: Rules, s: State, t: nat)
    requires Inv(rules, s) && Enabled(s, Insert(t))
    ensures ParentExists(s, s.calls[t].request)
    ensures !Exists(s, s.calls[t].request) ==> After(rules, s, Insert(t)).calls[t].phase == Replied(Stored)
  {
  }

  /** An open request can always take its next step. */
  lemma CallsProgress(rules: Rules, s: State, t: nat)
    requires Inv(rules, s) && t in s.calls && !s.calls[t].phase.Replied?
    ensures Enabled(s, CheckParent(t)) || Enabled(s, Insert(t)) || Enabled(s, Compare(t))
  {
    hide RecordsOk, StillBound;
  }

  // ---- whole runs of the server ----------------------------------------------------------------------------------

  function Start(store: Store): State {
    State(store, map[], map[], map[])
  }

  ghost predicate Next(rules: Rules, a: State, b: State) {
    exists step :: Enabled(a, step) && b == After(rules, a, step)
  }

  ghost predicate Behaviour(rules: Rules, store: Store, trace: seq<State>) {
    && trace != [] && trace[0] == Start(store)
    && forall i :: 0 <= i < |trace| - 1 ==> Next(rules, trace[i], trace[i + 1])
  }

  lemma {:induction false} Reachable(rules: Rules, store: Store, trace: seq<State>, i: nat)
    requires Behaviour(rules, store, trace) && i < |trace|
    ensures Inv(rules, trace[i])
    decreases i
  {
    if i > 0 {
      Reachable(rules, store, trace, i - 1);
      assert Next(rules, trace[i - 1], trace[i - 1 + 1]);
      hide Enabled, After, RecordsOk, CallsOk;
      var step :| Enabled(trace[i - 1], step) && trace[i] == After(rules, trace[i - 1], step);
      RecordsKept(rules, trace[i - 1], step);
      CallsKept(rules, trace[i - 1], step);
    }
  }

  /** The step taken at a point of a run. */
  lemma StepAt(rules: Rules, store: Store, trace: seq<State>, j: nat) returns (step: Step)
    requires Behaviour(rules, store, trace) && j + 1 < |trace|
    ensures Enabled(trace[j], step) && trace[j + 1] == After(rules, trace[j], step)
  {
    assert Next(rules, trace[j], trace[j + 1]);
    hide Enabled, After;
    step :| Enabled(trace[j], step) && trace[j + 1] == After(rules, trace[j], step);
  }

  /** In every reachable state each counterexample has its parent run, from the local project it was
      checked against, and each reproduction has such a counterexample from the same local project. */
  lemma ParentsAlwaysExist(rules: Rules, store: Store, trace: seq<State>, i: nat)
    requires Behaviour(rules, store, trace) && i < |trace|
    ensures var s := trace[i];
      && (forall k :: k in s.counterexamples ==>
            var c := s.counterexamples[k];
            RunOf(c) in s.store.runs && s.store.runs[RunOf(c)].localProject == c.localProject)
      && (forall k :: k in s.reproductions ==>
            var r := s.reproductions[k];
            ParentOf(r) in s.counterexamples && s.counterexamples[ParentOf(r)].localProject == r.localProject)
  {
    Reachable(rules, store, trace, i);
    var s := trace[i];
    hide Behaviour, BoundEarlier, CallsOk;
    forall k | k in s.counterexamples
      ensures RunOf(s.counterexamples[k]) in s.store.runs
      ensures s.store.runs[RunOf(s.counterexamples[k])].localProject == s.counterexamples[k].localProject
    {
      assert StillBound(rules, s, OfCounterexample(s.counterexamples[k]));
    }
    forall k | k in s.reproductions
      ensures ParentOf(s.reproductions[k]) in s.counterexamples
      ensures s.counterexamples[ParentOf(s.reproductions[k])].localProject == s.reproductions[k].localProject
    {
      assert StillBound(rules, s, OfReproduction(s.reproductions[k]));
    }
  }

  /** Stored records, and the runs under them, are there for good. */
  lemma {:induction false} RecordsAreImmutable(rules: Rules, store: Store, trace: seq<State>, i: nat, j: nat)
    requires Behaviour(rules, store, trace) && i <= j < |trace|
    ensures Later(trace[i], trace[j])
    decreases j
  {
    hide *;
    if i < j {
      RecordsAreImmutable(rules, store, trace, i, j - 1);
      var step := StepAt(rules, store, trace, j - 1);
      StepsOnlyAdd(rules, trace[j - 1], step);
      LaterTransitive(trace[i], trace[j - 1], trace[j]);
    } else {
      LaterReflexive(trace[i]);
    }
  }

  /** The record is in its table with the digest that was sent. */
  predicate StoredAs(s: State, request: Request) {
    match request
    case OfCounterexample(c) => c.key in s.counterexamples && s.counterexamples[c.key].digest == c.digest
    case OfReproduction(r) => r.key in s.reproductions && s.reproductions[r.key].digest == r.digest
  }

  /** The record's key is taken by other content. */
  predicate StoredOtherwise(s: State, request: Request) {
    match request
    case OfCounterexample(c) => c.key in s.counterexamples && s.counterexamples[c.key].digest != c.digest
    case OfReproduction(r) => r.key in s.reproductions && s.reproductions[r.key].digest != r.digest
  }

  /** The record itself is added to its table, under its own key, and nothing else moves. */
  predicate Adds(s: State, next: State, request: Request) {
    match request
    case OfCounterexample(c) =>
      c.key !in s.counterexamples && next.counterexamples == s.counterexamples[c.key := c]
      && next.reproductions == s.reproductions && next.store == s.store
    case OfReproduction(r) =>
      r.key !in s.reproductions && next.reproductions == s.reproductions[r.key := r]
      && next.counterexamples == s.counterexamples && next.store == s.store
  }

  predicate AcceptedReply(reply: Reply) {
    reply == Stored || reply == AlreadyStored
  }

  /** The reply in full: accepted exactly when the table holds the sent digest after it, differing exactly
      when it holds another. `Stored` adds the record; no other reply changes any table. */
  lemma ReplyMeans(rules: Rules, s: State, step: Step, t: nat)
    requires Inv(rules, s) && Enabled(s, step) && (step == Insert(t) || step == Compare(t))
    requires After(rules, s, step).calls[t].phase.Replied?
    ensures var next, request := After(rules, s, step), s.calls[t].request;
      var reply := next.calls[t].phase.reply;
      && (AcceptedReply(reply) <==> StoredAs(next, request))
      && (reply == Differs <==> StoredOtherwise(s, request))
      && reply != Invalid
      && (reply == Stored ==> Adds(s, next, request))
      && (reply != Stored ==> next.store == s.store && next.counterexamples == s.counterexamples && next.reproductions == s.reproductions)
  {
  }

  /** The parent a request names is there, comes from the same local project, and binds. */
  predicate ParentFits(rules: Rules, s: State, request: Request) {
    match request
    case OfCounterexample(c) =>
      var run := Key(c.key.project, c.run);
      run in s.store.runs && s.store.runs[run].localProject == c.localProject && rules.bindCounterexample(c, s.store.runs[run])
    case OfReproduction(r) =>
      var parent := CounterexampleKey(r.key.project, r.counterexample);
      parent in s.counterexamples
      && (var run := Key(s.counterexamples[parent].key.project, s.counterexamples[parent].run);
          run in s.store.runs && s.store.runs[run].localProject == r.localProject)
      && rules.bindReproduction(r, s.counterexamples[parent].text)
  }

  /** The check refuses a request exactly when its parent does not fit, and changes no table. */
  lemma CheckMeans(rules: Rules, s: State, t: nat)
    requires Enabled(s, CheckParent(t))
    ensures var next := After(rules, s, CheckParent(t));
      && (next.calls[t].phase == Replied(Invalid) <==> !ParentFits(rules, s, s.calls[t].request))
      && (next.calls[t].phase == Checked <==> ParentFits(rules, s, s.calls[t].request))
      && next == s.(calls := next.calls)
  {
  }

  /** Some request that sent this very record was answered that it created it. */
  ghost predicate Sent(s: State, request: Request) {
    exists t :: t in s.calls && s.calls[t] == Call(request, Replied(Stored))
  }

  lemma SentStays(rules: Rules, s: State, step: Step, request: Request)
    requires Enabled(s, step) && Sent(s, request)
    ensures Sent(After(rules, s, step), request)
  {
    var t :| t in s.calls && s.calls[t] == Call(request, Replied(Stored));
    assert t in After(rules, s, step).calls && After(rules, s, step).calls[t] == s.calls[t] by {
      hide ParentAccepts, StoredDigest, SentDigest, Exists, ParentExists;
    }
  }

  lemma InsertedIsSent(rules: Rules, s: State, step: Step, request: Request)
    requires Inv(rules, s) && Enabled(s, step) && InsertedBy(s, step, request) && !Exists(s, request)
    ensures Sent(After(rules, s, step), request)
  {
    InsertFindsParent(rules, s, step.t);
    hide Inv, ParentExists, Exists;
    assert After(rules, s, step).calls[step.t] == Call(request, Replied(Stored));
  }

  /** Every stored counterexample is, in full, what one request sent. */
  lemma {:induction false} CounterexamplesComeFromRequests(rules: Rules, store: Store, trace: seq<State>, i: nat, k: CounterexampleKey)
    requires Behaviour(rules, store, trace) && i < |trace| && k in trace[i].counterexamples
    ensures trace[i].counterexamples[k].key == k && Sent(trace[i], OfCounterexample(trace[i].counterexamples[k]))
    decreases i
  {
    Reachable(rules, store, trace, i);
    assert trace[0].counterexamples == map[];
    assert trace[i].counterexamples[k].key == k;
    var a, c := trace[i - 1], trace[i].counterexamples[k];
    var step := StepAt(rules, store, trace, i - 1);
    RecordsAfter(rules, a, step);
    Reachable(rules, store, trace, i - 1);
    hide Inv, Enabled, After, Sent, Behaviour, InsertedBy;
    if k in a.counterexamples && a.counterexamples[k] == c {
      CounterexamplesComeFromRequests(rules, store, trace, i - 1, k);
      SentStays(rules, a, step, OfCounterexample(c));
    } else {
      StepsOnlyAdd(rules, a, step);
      InsertedIsSent(rules, a, step, OfCounterexample(c));
    }
  }

  /** And so is every reproduction. */
  lemma {:induction false} ReproductionsComeFromRequests(rules: Rules, store: Store, trace: seq<State>, i: nat, k: ReproductionKey)
    requires Behaviour(rules, store, trace) && i < |trace| && k in trace[i].reproductions
    ensures trace[i].reproductions[k].key == k && Sent(trace[i], OfReproduction(trace[i].reproductions[k]))
    decreases i
  {
    Reachable(rules, store, trace, i);
    assert trace[0].reproductions == map[];
    assert trace[i].reproductions[k].key == k;
    var a, r := trace[i - 1], trace[i].reproductions[k];
    var step := StepAt(rules, store, trace, i - 1);
    RecordsAfter(rules, a, step);
    Reachable(rules, store, trace, i - 1);
    hide Inv, Enabled, After, Sent, Behaviour, InsertedBy;
    if k in a.reproductions && a.reproductions[k] == r {
      ReproductionsComeFromRequests(rules, store, trace, i - 1, k);
      SentStays(rules, a, step, OfReproduction(r));
    } else {
      StepsOnlyAdd(rules, a, step);
      InsertedIsSent(rules, a, step, OfReproduction(r));
    }
  }

  /** Once accepted, a record's digest never changes, so re-sending it can never be refused as different. */
  lemma AcceptedDigestStays(rules: Rules, store: Store, trace: seq<State>, i: nat, j: nat, request: Request)
    requires Behaviour(rules, store, trace) && i <= j < |trace| && StoredAs(trace[i], request)
    ensures StoredAs(trace[j], request)
  {
    RecordsAreImmutable(rules, store, trace, i, j);
    hide Behaviour, Extends;
  }
}
