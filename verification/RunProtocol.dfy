/** Concurrent `sync_run` transactions (cloud/src/api.rs:523-593).

    Each request is a transaction that advances one statement at a time, in any interleaving with the
    others. Rows and links inserted by an open transaction are invisible and block a second insert of the
    same key; `FOR UPDATE` waits for the row's lock; an error or a lost connection rolls back. */
module RunProtocol {
  import opened Prelude
  import opened RunStore

  datatype Phase =
    | Ready                                                            // before the insert
    | Found                                                            // the insert met an existing row
    | Locked(seen: Row)                                                // the row is selected for update
    | Linking(status: Outcome, write: Option<Row>)                     // before the link insert
    | Committing(status: Outcome, write: Option<Row>, linked: bool)    // before the commit
    | Finished(status: Outcome)
    | Failed

  datatype Tx = Tx(doc: Document, phase: Phase)

  datatype Entry = Sync(doc: Document, outcome: Outcome) | Link(link: LinkKey, who: string)

  /** Committed tables, open transactions, locks, and the history of answers in the order they took effect. */
  datatype State = State(store: Store, txs: map<nat, Tx>, rowLocks: map<Key, nat>, linkLocks: map<LinkKey, nat>, log: seq<Entry>)

  datatype Step =
    | Begin(t: nat, doc: Document)
    | InsertRun(t: nat)
    | LockRow(t: nat)
    | Decide(t: nat)
    | InsertLink(t: nat)
    | Commit(t: nat)
    | Abort(t: nat)
    | RecordLink(link: LinkKey, who: string)

  function Start(store: Store): State {
    State(store, map[], map[], map[], [])
  }

  predicate Unfinished(tx: Tx) {
    !tx.phase.Finished? && !tx.phase.Failed?
  }

  predicate HasRow(tx: Tx) {
    tx.phase.Locked? || tx.phase.Linking? || tx.phase.Committing?
  }

  predicate HasLink(tx: Tx) {
    tx.phase.Committing? && tx.phase.linked
  }

  predicate Enabled(s: State, step: Step) {
    match step
    case Begin(t, _) => t !in s.txs
    case InsertRun(t) =>
      t in s.txs && s.txs[t].phase.Ready? && (s.txs[t].doc.key in s.store.runs || s.txs[t].doc.key !in s.rowLocks)
    case LockRow(t) =>
      t in s.txs && s.txs[t].phase.Found? && s.txs[t].doc.key in s.store.runs && s.txs[t].doc.key !in s.rowLocks
    case Decide(t) => t in s.txs && s.txs[t].phase.Locked?
    case InsertLink(t) =>
      t in s.txs && s.txs[t].phase.Linking? && (LinkOf(s.txs[t].doc) in s.store.links || LinkOf(s.txs[t].doc) !in s.linkLocks)
    case Commit(t) => t in s.txs && s.txs[t].phase.Committing?
    case Abort(t) => t in s.txs && Unfinished(s.txs[t])
    case RecordLink(l, _) => l in s.store.links || l !in s.linkLocks
  }

  function To(s: State, t: nat, phase: Phase): map<nat, Tx>
    requires t in s.txs
  {
    s.txs[t := s.txs[t].(phase := phase)]
  }

  function ReleaseRow(s: State, t: nat): map<Key, nat>
    requires t in s.txs
  {
    if HasRow(s.txs[t]) then s.rowLocks - {s.txs[t].doc.key} else s.rowLocks
  }

  function ReleaseLink(s: State, t: nat): map<LinkKey, nat>
    requires t in s.txs
  {
    if HasLink(s.txs[t]) then s.linkLocks - {LinkOf(s.txs[t].doc)} else s.linkLocks
  }

  /** What the handler does with the row it locked. */
  function Decision(seen: Row, d: Document): Phase {
    if seen.core != d.core then Finished(Conflict)
    else
      match (seen.search, d.search)
      case (None, Some(_)) => Linking(SearchAttached, Some(Attach(seen, d)))
      case (Some(saved), Some(sent)) => if saved.digest != sent.digest then Finished(Conflict) else Linking(Unchanged, None)
      case _ => Linking(Unchanged, None)
  }

  function Committed(store: Store, tx: Tx): Store
    requires tx.phase.Committing?
  {
    Store(if tx.phase.write.Some? then store.runs[tx.doc.key := tx.phase.write.value] else store.runs,
          if tx.phase.linked then store.links[LinkOf(tx.doc) := tx.doc.syncedBy] else store.links)
  }

  function After(s: State, step: Step): State
    requires Enabled(s, step)
  {
    match step
    case Begin(t, doc) => s.(txs := s.txs[t := Tx(doc, Ready)])
    case InsertRun(t) =>
      var d := s.txs[t].doc;
      if d.key in s.store.runs then s.(txs := To(s, t, Found))
      else s.(txs := To(s, t, Linking(Created, Some(RowOf(d)))), rowLocks := s.rowLocks[d.key := t])
    case LockRow(t) =>
      var d := s.txs[t].doc;
      s.(txs := To(s, t, Locked(s.store.runs[d.key])), rowLocks := s.rowLocks[d.key := t])
    case Decide(t) =>
      var d := s.txs[t].doc;
      var phase := Decision(s.txs[t].phase.seen, d);
      if phase.Finished? then
        s.(txs := To(s, t, phase), rowLocks := ReleaseRow(s, t), log := s.log + [Sync(d, phase.status)])
      else s.(txs := To(s, t, phase))
    case InsertLink(t) =>
      var tx := s.txs[t];
      var l := LinkOf(tx.doc);
      if l in s.store.links then s.(txs := To(s, t, Committing(tx.phase.status, tx.phase.write, false)))
      else s.(txs := To(s, t, Committing(tx.phase.status, tx.phase.write, true)), linkLocks := s.linkLocks[l := t])
    case Commit(t) =>
      var tx := s.txs[t];
      State(Committed(s.store, tx), To(s, t, Finished(tx.phase.status)), ReleaseRow(s, t), ReleaseLink(s, t),
            s.log + [Sync(tx.doc, tx.phase.status)])
    case Abort(t) => State(s.store, To(s, t, Failed), ReleaseRow(s, t), ReleaseLink(s, t), s.log)
    case RecordLink(l, who) =>
      s.(store := Store(s.store.runs, WithLink(s.store.links, l, who)), log := s.log + [Link(l, who)])
  }

  // ---- the invariant -----------------------------------------------------------------------------------------

  /** The write an accepted document needs against the current tables. */
  function WriteFor(store: Store, d: Document): Option<Row> {
    match Answer(store, d)
    case Created => Some(RowOf(d))
    case SearchAttached => Some(Attach(store.runs[d.key], d))
    case _ => None
  }

  predicate Planned(store: Store, d: Document, status: Outcome, write: Option<Row>) {
    status == Answer(store, d) && status != Conflict && write == WriteFor(store, d)
  }

  predicate TxOk(store: Store, tx: Tx) {
    match tx.phase
    case Found => tx.doc.key in store.runs
    case Locked(seen) => tx.doc.key in store.runs && store.runs[tx.doc.key] == seen
    case Linking(status, write) => Planned(store, tx.doc, status, write)
    case Committing(status, write, linked) =>
      Planned(store, tx.doc, status, write) && (linked <==> LinkOf(tx.doc) !in store.links)
    case _ => true
  }

  /** Row locks are held by exactly the transactions whose phase says so. */
  ghost predicate RowsOk(txs: map<nat, Tx>, locks: map<Key, nat>) {
    && (forall k :: k in locks ==> locks[k] in txs && HasRow(txs[locks[k]]) && txs[locks[k]].doc.key == k)
    && (forall t :: t in txs && HasRow(txs[t]) ==> txs[t].doc.key in locks && locks[txs[t].doc.key] == t)
  }

  ghost predicate LinksOk(txs: map<nat, Tx>, locks: map<LinkKey, nat>) {
    && (forall l :: l in locks ==> locks[l] in txs && HasLink(txs[locks[l]]) && LinkOf(txs[locks[l]].doc) == l)
    && (forall t :: t in txs && HasLink(txs[t]) ==> LinkOf(txs[t].doc) in locks && locks[LinkOf(txs[t].doc)] == t)
  }

  ghost predicate LocksOk(s: State) {
    RowsOk(s.txs, s.rowLocks) && LinksOk(s.txs, s.linkLocks)
  }

  ghost predicate Inv(s: State) {
    LocksOk(s) && forall t :: t in s.txs ==> TxOk(s.store, s.txs[t])
  }

  /** Row locks after one transaction moved to a new phase. */
  function RowLocksAfter(txs: map<nat, Tx>, locks: map<Key, nat>, t: nat, tx: Tx): map<Key, nat> {
    if HasRow(tx) then locks[tx.doc.key := t]
    else if t in txs && HasRow(txs[t]) then locks - {tx.doc.key}
    else locks
  }

  function LinkLocksAfter(txs: map<nat, Tx>, locks: map<LinkKey, nat>, t: nat, tx: Tx): map<LinkKey, nat> {
    if HasLink(tx) then locks[LinkOf(tx.doc) := t]
    else if t in txs && HasLink(txs[t]) then locks - {LinkOf(tx.doc)}
    else locks
  }

  lemma RowsMove(txs: map<nat, Tx>, locks: map<Key, nat>, t: nat, tx: Tx)
    requires RowsOk(txs, locks) && (t in txs ==> txs[t].doc == tx.doc)
    requires HasRow(tx) ==> tx.doc.key !in locks || locks[tx.doc.key] == t
    ensures RowsOk(txs[t := tx], RowLocksAfter(txs, locks, t, tx))
  {
  }

  lemma LinksMove(txs: map<nat, Tx>, locks: map<LinkKey, nat>, t: nat, tx: Tx)
    requires LinksOk(txs, locks) && (t in txs ==> txs[t].doc == tx.doc)
    requires HasLink(tx) ==> LinkOf(tx.doc) !in locks || locks[LinkOf(tx.doc)] == t
    ensures LinksOk(txs[t := tx], LinkLocksAfter(txs, locks, t, tx))
  {
  }

  /** Each step moves one transaction and the locks accordingly. */
  lemma StepMoves(s: State, step: Step)
    requires LocksOk(s) && Enabled(s, step) && !step.RecordLink?
    ensures var next, t := After(s, step), step.t;
      && t in next.txs
      && (t in s.txs ==> s.txs[t].doc == next.txs[t].doc)
      && next.txs == s.txs[t := next.txs[t]]
  {
    hide Committed, Decision, WithLink, RowOf, LinkOf, Attach, LocksOk;
  }

  lemma StepMovesRow(s: State, step: Step)
    requires LocksOk(s) && Enabled(s, step) && !step.RecordLink?
    ensures var next, t := After(s, step), step.t;
      && t in next.txs
      && (HasRow(next.txs[t]) ==> next.txs[t].doc.key !in s.rowLocks || s.rowLocks[next.txs[t].doc.key] == t)
      && next.rowLocks == RowLocksAfter(s.txs, s.rowLocks, t, next.txs[t])
  {
    if step.Decide? { DecisionPhases(s.txs[step.t].phase.seen, s.txs[step.t].doc); }
    hide Committed, Decision, WithLink, RowOf, LinkOf, Attach, LinksOk;
    var tx := After(s, step).txs[step.t];
    assert step.t in s.txs && HasRow(s.txs[step.t]) ==> s.rowLocks[tx.doc.key := step.t] == s.rowLocks;
  }

  lemma StepMovesLink(s: State, step: Step)
    requires LocksOk(s) && Enabled(s, step) && !step.RecordLink?
    ensures var next, t := After(s, step), step.t;
      && t in next.txs
      && (HasLink(next.txs[t]) ==> LinkOf(next.txs[t].doc) !in s.linkLocks || s.linkLocks[LinkOf(next.txs[t].doc)] == t)
      && next.linkLocks == LinkLocksAfter(s.txs, s.linkLocks, t, next.txs[t])
  {
    if step.Decide? { DecisionPhases(s.txs[step.t].phase.seen, s.txs[step.t].doc); }
    hide Committed, Decision, WithLink, RowOf, LinkOf, Attach, RowsOk;
  }

  lemma LocksKept(s: State, step: Step)
    requires LocksOk(s) && Enabled(s, step)
    ensures LocksOk(After(s, step))
  {
    if !step.RecordLink? {
      StepMoves(s, step);
      StepMovesRow(s, step);
      StepMovesLink(s, step);
      hide After, RowsOk, LinksOk;
      RowsMove(s.txs, s.rowLocks, step.t, After(s, step).txs[step.t]);
      LinksMove(s.txs, s.linkLocks, step.t, After(s, step).txs[step.t]);
    }
  }

  lemma DecisionPhases(seen: Row, d: Document)
    ensures var p := Decision(seen, d); p == Finished(Conflict) || (p.Linking? && p.status != Conflict)
  {
  }

  /** A commit has exactly the effect of the whole request at that moment. */
  lemma CommitIsSync(store: Store, tx: Tx)
    requires tx.phase.Committing? && TxOk(store, tx)
    ensures Committed(store, tx) == Synced(store, tx.doc)
    ensures tx.phase.status == Answer(store, tx.doc)
  {
  }

  lemma DecisionIsAnswer(store: Store, d: Document)
    requires d.key in store.runs
    ensures var p := Decision(store.runs[d.key], d);
      if p.Finished? then Answer(store, d) == Conflict else Planned(store, d, p.status, p.write)
  {
  }

  lemma CommitElsewhere(s: State, t: nat, u: nat)
    requires Inv(s) && t in s.txs && u in s.txs && t != u && s.txs[t].phase.Committing?
    ensures TxOk(Committed(s.store, s.txs[t]), s.txs[u])
  {
  }

  lemma LinkElsewhere(s: State, l: LinkKey, who: string, u: nat)
    requires Inv(s) && u in s.txs && (l in s.store.links || l !in s.linkLocks)
    ensures TxOk(Store(s.store.runs, WithLink(s.store.links, l, who)), s.txs[u])
  {
  }

  /** The transaction that moves is in order afterwards. */
  lemma MoverOk(s: State, step: Step)
    requires Inv(s) && Enabled(s, step) && !step.RecordLink?
    ensures TxOk(After(s, step).store, After(s, step).txs[step.t])
  {
    if step.Decide? { DecisionIsAnswer(s.store, s.txs[step.t].doc); }
  }

  lemma InvKept(s: State, step: Step)
    requires Inv(s) && Enabled(s, step)
    ensures Inv(After(s, step))
  {
    LocksKept(s, step);
    if !step.RecordLink? { MoverOk(s, step); }
    forall u | u in After(s, step).txs ensures TxOk(After(s, step).store, After(s, step).txs[u]) {
      if step.RecordLink? {
        LinkElsewhere(s, step.link, step.who, u);
      } else if u != step.t && step.Commit? {
        CommitElsewhere(s, step.t, u);
      }
      hide TxOk, Committed, Decision, LocksOk, LinkOf;
    }
  }

  // ---- what one step can do to the tables ------------------------------------------------------------------------

  /** The tables after replaying the history. */
  function Effect(store: Store, e: Entry): Store {
    match e
    case Sync(d, _) => Synced(store, d)
    case Link(l, who) => Store(store.runs, WithLink(store.links, l, who))
  }

  function Replay(store: Store, log: seq<Entry>): Store {
    if log == [] then store else Effect(Replay(store, log[..|log| - 1]), log[|log| - 1])
  }

  /** Every answer in the history is the one the handler gives when it runs alone at that point. */
  predicate AnswersRight(store: Store, log: seq<Entry>) {
    log == [] ||
      (AnswersRight(store, log[..|log| - 1])
       && (log[|log| - 1].Sync? ==>
             log[|log| - 1].outcome == Answer(Replay(store, log[..|log| - 1]), log[|log| - 1].doc)))
  }

  /** A step either leaves tables and history alone, or appends one entry and has that entry's effect. */
  lemma StepEffect(s: State, step: Step)
    requires Inv(s) && Enabled(s, step)
    ensures var next := After(s, step);
      || (next.store == s.store && next.log == s.log)
      || (exists e :: next.log == s.log + [e] && next.store == Effect(s.store, e)
                      && (e.Sync? ==> e.outcome == Answer(s.store, e.doc)))
  {
    var next := After(s, step);
    if step.Commit? {
      CommitIsSync(s.store, s.txs[step.t]);
      var e := Sync(s.txs[step.t].doc, s.txs[step.t].phase.status);
      assert next.log == s.log + [e] && next.store == Effect(s.store, e);
    } else if step.RecordLink? {
      var e := Link(step.link, step.who);
      assert next.log == s.log + [e] && next.store == Effect(s.store, e);
    } else if step.Decide? {
      var d := s.txs[step.t].doc;
      DecisionIsAnswer(s.store, d);
      DecisionPhases(s.txs[step.t].phase.seen, d);
      SyncExtends(s.store, d);
      hide Synced, Answer, Decision;
      if next.log != s.log {
        var e := Sync(d, Conflict);
        assert next.log == s.log + [e] && next.store == Effect(s.store, e);
      }
    }
  }

  lemma EffectExtends(store: Store, e: Entry)
    ensures Extends(store, Effect(store, e))
  {
  }

  lemma StepExtends(s: State, step: Step)
    requires Inv(s) && Enabled(s, step)
    ensures Extends(s.store, After(s, step).store)
  {
    StepEffect(s, step);
    var next := After(s, step);
    hide After, Effect, Inv;
    if next.log != s.log {
      var e :| next.log == s.log + [e] && next.store == Effect(s.store, e) && (e.Sync? ==> e.outcome == Answer(s.store, e.doc));
      EffectExtends(s.store, e);
    }
  }

  /** Only a commit, or a direct link, changes the tables; a request answered with a conflict never did. */
  lemma OpenTransactionsAreInvisible(s: State, step: Step)
    requires Inv(s) && Enabled(s, step) && !step.Commit? && !step.RecordLink?
    ensures After(s, step).store == s.store
  {
  }

  // ---- runs ----------------------------------------------------------------------------------------------------

  ghost predicate Next(a: State, b: State) {
    exists step :: Enabled(a, step) && b == After(a, step)
  }

  /** A finite history of the system, one step at a time. */
  ghost predicate Behaviour(store: Store, trace: seq<State>) {
    && trace != [] && trace[0] == Start(store)
    && forall i :: 0 <= i < |trace| - 1 ==> Next(trace[i], trace[i + 1])
  }

  lemma {:induction false} Reachable(store: Store, trace: seq<State>, i: nat)
    requires Behaviour(store, trace) && i < |trace|
    ensures Inv(trace[i])
    decreases i
  {
    if i > 0 {
      Reachable(store, trace, i - 1);
      assert Next(trace[i - 1], trace[i - 1 + 1]);
      hide Inv, Enabled, After;
      var step :| Enabled(trace[i - 1], step) && trace[i] == After(trace[i - 1], step);
      InvKept(trace[i - 1], step);
    }
  }

  /** The step taken at a point of a run, between two states that satisfy the invariant. */
  lemma StepAt(store: Store, trace: seq<State>, j: nat) returns (step: Step)
    requires Behaviour(store, trace) && j + 1 < |trace|
    ensures Inv(trace[j]) && Inv(trace[j + 1])
    ensures Enabled(trace[j], step) && trace[j + 1] == After(trace[j], step)
  {
    Reachable(store, trace, j);
    Reachable(store, trace, j + 1);
    assert Next(trace[j], trace[j + 1]);
    hide Inv, Enabled, After;
    step :| Enabled(trace[j], step) && trace[j + 1] == After(trace[j], step);
  }

  /** Over any interleaving, stored runs are never removed or rewritten: core digest and texts are
      fixed, and a search result appears at most once and then stays. */
  lemma {:induction false} RunsAreWriteOnce(store: Store, trace: seq<State>, i: nat, j: nat)
    requires Behaviour(store, trace) && i <= j < |trace|
    ensures Extends(trace[i].store, trace[j].store)
    decreases j
  {
    hide *;
    if i < j {
      RunsAreWriteOnce(store, trace, i, j - 1);
      var step := StepAt(store, trace, j - 1);
      StepExtends(trace[j - 1], step);
      ExtendsTransitive(trace[i].store, trace[j - 1].store, trace[j].store);
    } else {
      ExtendsReflexive(trace[i].store);
    }
  }

  /** Any interleaving is equivalent to the finished requests running one after another, in the
      order their answers took effect, each answering as it did. */
  lemma {:induction false} Linearizable(store: Store, trace: seq<State>, i: nat)
    requires Behaviour(store, trace) && i < |trace|
    ensures trace[i].store == Replay(store, trace[i].log) && AnswersRight(store, trace[i].log)
    decreases i
  {
    if i > 0 {
      Linearizable(store, trace, i - 1);
      var a, b := trace[i - 1], trace[i];
      var step := StepAt(store, trace, i - 1);
      hide Inv, Enabled, After, Effect, Behaviour;
      StepEffect(a, step);
      if b.log != a.log {
        var e :| b.log == a.log + [e] && b.store == Effect(a.store, e) && (e.Sync? ==> e.outcome == Answer(a.store, e.doc));
        assert b.log[..|b.log| - 1] == a.log;
      }
    }
  }

  predicate Done(s: State, t: nat) {
    t in s.txs && s.txs[t].phase.Finished?
  }

  /** A transaction that finishes in this step gives the answer of the whole request at this moment. */
  lemma FinishIsAnswer(s: State, step: Step, t: nat)
    requires Inv(s) && Enabled(s, step) && !Done(s, t) && Done(After(s, step), t)
    ensures t in s.txs && After(s, step).txs[t].doc == s.txs[t].doc
    ensures After(s, step).txs[t].phase.status == Answer(s.store, s.txs[t].doc)
    ensures After(s, step).store == Synced(s.store, s.txs[t].doc)
  {
    assert !step.RecordLink? && t == step.t && (step.Commit? || step.Decide?);
    if step.Commit? {
      CommitIsSync(s.store, s.txs[t]);
    } else {
      DecisionIsAnswer(s.store, s.txs[t].doc);
      SyncExtends(s.store, s.txs[t].doc);
    }
    hide Synced, Answer, Decision, Committed;
  }

  lemma DoneStays(s: State, step: Step, t: nat)
    requires Enabled(s, step) && Done(s, t)
    ensures Done(After(s, step), t) && After(s, step).txs[t] == s.txs[t]
  {
  }

  /** An accepted document is stored from the moment it is accepted. */
  lemma {:induction false} AcceptedIsStored(store: Store, trace: seq<State>, i: nat, t: nat)
    requires Behaviour(store, trace) && i < |trace| && Done(trace[i], t) && trace[i].txs[t].phase.status != Conflict
    ensures Holds(trace[i].store, trace[i].txs[t].doc)
    decreases i
  {
    NoneAtStart(store, trace, t);
    hide *;
    var a, b := trace[i - 1], trace[i];
    var step := StepAt(store, trace, i - 1);
    if Done(a, t) {
      DoneStays(a, step, t);
      AcceptedIsStored(store, trace, i - 1, t);
      StepExtends(a, step);
      HoldsForever(a.store, b.store, b.txs[t].doc);
    } else {
      FinishIsAnswer(a, step, t);
      SyncExtends(a.store, a.txs[t].doc);
    }
  }

  lemma NoneAtStart(store: Store, trace: seq<State>, t: nat)
    requires Behaviour(store, trace)
    ensures !Done(trace[0], t)
  {
  }

  predicate AnsweredUnchanged(s: State, t: nat) {
    Done(s, t) && s.txs[t].phase.status == Unchanged
  }

  predicate SentBy(s: State, t: nat, doc: Document) {
    t in s.txs && s.txs[t].doc == doc
  }

  /** A transaction that finishes while its document is stored answers unchanged. */
  lemma FinishOfStored(s: State, step: Step, t: nat, doc: Document)
    requires Inv(s) && Enabled(s, step) && !Done(s, t) && Done(After(s, step), t)
    requires SentBy(After(s, step), t, doc) && Holds(s.store, doc)
    ensures AnsweredUnchanged(After(s, step), t)
  {
    FinishIsAnswer(s, step, t);
    ResendIsUnchanged(s.store, doc);
    hide Inv, Enabled, After, Holds, Answer, Synced;
  }

  lemma AnswerStays(s: State, step: Step, t: nat)
    requires Enabled(s, step) && Done(s, t)
    ensures AnsweredUnchanged(s, t) ==> AnsweredUnchanged(After(s, step), t)
    ensures forall doc :: SentBy(After(s, step), t, doc) ==> SentBy(s, t, doc)
  {
    DoneStays(s, step, t);
    hide Enabled, After;
  }

  lemma {:induction false} StoredAnswersUnchanged(store: Store, trace: seq<State>, i: nat, j: nat, u: nat, doc: Document)
    requires Behaviour(store, trace) && i <= j < |trace| && Holds(trace[i].store, doc)
    requires !Done(trace[i], u) && Done(trace[j], u) && SentBy(trace[j], u, doc)
    ensures AnsweredUnchanged(trace[j], u)
    decreases j
  {
    hide *;
    if i < j {
      var a := trace[j - 1];
      var step := StepAt(store, trace, j - 1);
      if Done(a, u) {
        AnswerStays(a, step, u);
        StoredAnswersUnchanged(store, trace, i, j - 1, u, doc);
      } else {
        RunsAreWriteOnce(store, trace, i, j - 1);
        HoldsForever(trace[i].store, a.store, doc);
        FinishOfStored(a, step, u, doc);
      }
    }
  }

  /** Re-sending an accepted document, however concurrently, can only answer unchanged. */
  lemma ResendAnswersUnchanged(store: Store, trace: seq<State>, i: nat, t: nat, j: nat, u: nat)
    requires Behaviour(store, trace) && i <= j < |trace|
    requires Done(trace[i], t) && trace[i].txs[t].phase.status != Conflict
    requires !Done(trace[i], u) && Done(trace[j], u) && trace[j].txs[u].doc == trace[i].txs[t].doc
    ensures trace[j].txs[u].phase.status == Unchanged
  {
    AcceptedIsStored(store, trace, i, t);
    StoredAnswersUnchanged(store, trace, i, j, u, trace[i].txs[t].doc);
    hide Behaviour, Holds;
  }

  // ---- where the stored rows come from ---------------------------------------------------------------------------------

  /** Transaction `t` has finished with one of the two answers that write a row of `k`. */
  predicate Wrote(s: State, t: nat, k: Key) {
    Done(s, t) && s.txs[t].doc.key == k && s.txs[t].phase.status in {Created, SearchAttached}
  }

  /** The row's search and summary are those it had initially, or those of one finished request. */
  ghost predicate SearchSourced(store: Store, s: State, k: Key, row: Row) {
    || (k in store.runs && row.search == store.runs[k].search && row.summary == store.runs[k].summary)
    || (exists t :: Wrote(s, t, k) && row.search == s.txs[t].doc.search && row.summary == s.txs[t].doc.summary)
  }

  predicate CreatedBy(s: State, t: nat, k: Key) {
    Done(s, t) && s.txs[t].doc.key == k && s.txs[t].phase.status == Created
  }

  predicate SameCoreTexts(row: Row, localProject: string, core: string, content: string, syncedBy: string) {
    row.localProject == localProject && row.core == core && row.content == content && row.syncedBy == syncedBy
  }

  /** The rest of the row is as it was initially, or as the one request sent it that created the row. */
  ghost predicate CoreSourced(store: Store, s: State, k: Key, row: Row) {
    || (k in store.runs
        && SameCoreTexts(row, store.runs[k].localProject, store.runs[k].core, store.runs[k].content, store.runs[k].syncedBy))
    || (exists t :: CreatedBy(s, t, k)
          && SameCoreTexts(row, s.txs[t].doc.localProject, s.txs[t].doc.core, s.txs[t].doc.content, s.txs[t].doc.syncedBy))
  }

  ghost predicate Sourced(store: Store, s: State, k: Key, row: Row) {
    SearchSourced(store, s, k, row) && CoreSourced(store, s, k, row)
  }

  lemma SourceStays(store: Store, s: State, step: Step, k: Key, row: Row)
    requires Enabled(s, step) && Sourced(store, s, k, row)
    ensures Sourced(store, After(s, step), k, row)
  {
    forall t | Done(s, t) ensures Done(After(s, step), t) && After(s, step).txs[t] == s.txs[t] {
      DoneStays(s, step, t);
    }
    hide Enabled, After, Done;
    var next := After(s, step);
    forall t | Wrote(s, t, k) ensures Wrote(next, t, k) && next.txs[t] == s.txs[t] {
    }
    forall t | CreatedBy(s, t, k) ensures CreatedBy(next, t, k) && next.txs[t] == s.txs[t] {
    }
    hide Wrote, CreatedBy;
  }

  /** A step that changes the rows is the commit of a request that finishes in it. */
  lemma RowsChangeAtCommit(s: State, step: Step)
    requires Inv(s) && Enabled(s, step) && After(s, step).store.runs != s.store.runs
    ensures step.Commit? && !Done(s, step.t) && Done(After(s, step), step.t)
  {
    hide Inv, Committed, Decision;
  }

  lemma WrittenIsSourced(store: Store, s: State, step: Step, k: Key)
    requires Inv(s) && Enabled(s, step) && step.Commit? && !Done(s, step.t) && Done(After(s, step), step.t)
    requires k in After(s, step).store.runs && (k in s.store.runs ==> Sourced(store, After(s, step), k, s.store.runs[k]))
    ensures Sourced(store, After(s, step), k, After(s, step).store.runs[k])
  {
    var t, next := step.t, After(s, step);
    FinishIsAnswer(s, step, t);
    var d := s.txs[t].doc;
    SyncWrites(s.store, d);
    AnswerMeans(s.store, d);
    hide Inv, Enabled, After, Synced, Answer, Done;
    if k == d.key && next.txs[t].phase.status == Created {
      assert Wrote(next, t, k) && CreatedBy(next, t, k);
    } else if k == d.key && next.txs[t].phase.status == SearchAttached {
      assert Wrote(next, t, k);
      hide CreatedBy;
    }
  }

  lemma StartIsSourced(store: Store, trace: seq<State>)
    requires Behaviour(store, trace)
    ensures forall k :: k in trace[0].store.runs ==> Sourced(store, trace[0], k, trace[0].store.runs[k])
  {
  }

  /** In every reachable state, over any interleaving, a row was written by finished requests: its search and
      summary together by one, the rest of it together by the one that created it. */
  lemma {:induction false} RowsComeFromRequests(store: Store, trace: seq<State>, i: nat, k: Key)
    requires Behaviour(store, trace) && i < |trace| && k in trace[i].store.runs
    ensures Sourced(store, trace[i], k, trace[i].store.runs[k])
    decreases i
  {
    hide *;
    if i == 0 {
      StartIsSourced(store, trace);
    } else {
      var a, b := trace[i - 1], trace[i];
      var step := StepAt(store, trace, i - 1);
      if k in a.store.runs {
        RowsComeFromRequests(store, trace, i - 1, k);
        SourceStays(store, a, step, k, a.store.runs[k]);
      }
      if b.store.runs != a.store.runs {
        RowsChangeAtCommit(a, step);
        WrittenIsSourced(store, a, step, k);
      }
    }
  }

  /** Transaction `t` was accepted, for a document of this link sent by `who`. */
  predicate Linked(s: State, t: nat, l: LinkKey, who: string) {
    && Done(s, t) && s.txs[t].phase.status != Conflict
    && s.txs[t].doc.key.project == l.project && s.txs[t].doc.localProject == l.localProject && s.txs[t].doc.syncedBy == who
  }

  /** The link names whom it named initially, or whoever linked directly or sent an accepted document. */
  ghost predicate LinkSourced(store: Store, s: State, l: LinkKey, who: string) {
    (l in store.links && store.links[l] == who) || Link(l, who) in s.log || exists t :: Linked(s, t, l, who)
  }

  lemma LinkSourceStays(store: Store, s: State, step: Step, l: LinkKey, who: string)
    requires Inv(s) && Enabled(s, step) && LinkSourced(store, s, l, who)
    ensures LinkSourced(store, After(s, step), l, who)
  {
    forall t | Done(s, t) ensures Done(After(s, step), t) && After(s, step).txs[t] == s.txs[t] {
      DoneStays(s, step, t);
    }
    StepEffect(s, step);
    hide Enabled, After, Done, Inv, Effect;
    forall t | Linked(s, t, l, who) ensures Linked(After(s, step), t, l, who) {
    }
    hide Linked;
  }

  lemma NewLinkIsSourced(store: Store, s: State, step: Step, l: LinkKey)
    requires Inv(s) && Enabled(s, step) && l in After(s, step).store.links
    requires l !in s.store.links || After(s, step).store.links[l] != s.store.links[l]
    ensures LinkSourced(store, After(s, step), l, After(s, step).store.links[l])
  {
    var next := After(s, step);
    if step.RecordLink? {
      assert Link(step.link, step.who) in next.log;
    } else {
      LinksChangeAtCommit(s, step);
      var t := step.t;
      FinishIsAnswer(s, step, t);
      SyncWrites(s.store, s.txs[t].doc);
      hide Inv, Enabled, After, Synced, Answer, Done;
      assert Linked(next, t, l, next.store.links[l]);
    }
  }

  lemma LinksChangeAtCommit(s: State, step: Step)
    requires Inv(s) && Enabled(s, step) && After(s, step).store.links != s.store.links && !step.RecordLink?
    ensures step.Commit? && !Done(s, step.t) && Done(After(s, step), step.t)
  {
    hide Inv, Committed, Decision;
  }

  lemma StartLinksAreSourced(store: Store, trace: seq<State>)
    requires Behaviour(store, trace)
    ensures forall l :: l in trace[0].store.links ==> LinkSourced(store, trace[0], l, trace[0].store.links[l])
  {
  }

  /** Likewise for links. */
  lemma {:induction false} LinksComeFromRequests(store: Store, trace: seq<State>, i: nat, l: LinkKey)
    requires Behaviour(store, trace) && i < |trace| && l in trace[i].store.links
    ensures LinkSourced(store, trace[i], l, trace[i].store.links[l])
    decreases i
  {
    hide *;
    if i == 0 {
      StartLinksAreSourced(store, trace);
    } else {
      var a, b := trace[i - 1], trace[i];
      var step := StepAt(store, trace, i - 1);
      if l in a.store.links && b.store.links[l] == a.store.links[l] {
        LinksComeFromRequests(store, trace, i - 1, l);
        LinkSourceStays(store, a, step, l, a.store.links[l]);
      } else {
        NewLinkIsSourced(store, a, step, l);
      }
    }
  }

  // ---- order independence over whole runs ---------------------------------------------------------------------------

  function Documents(log: seq<Entry>): seq<Document> {
    if log == [] then []
    else Documents(log[..|log| - 1]) + (if log[|log| - 1].Sync? then [log[|log| - 1].doc] else [])
  }

  lemma SyncedRuns(a: Store, b: Store, d: Document)
    requires a.runs == b.runs
    ensures Synced(a, d).runs == Synced(b, d).runs
  {
  }

  lemma {:induction false} ReplayedRuns(store: Store, log: seq<Entry>)
    ensures Replay(store, log).runs == SyncAll(store, Documents(log)).runs
  {
    if log != [] {
      var init, last := log[..|log| - 1], log[|log| - 1];
      ReplayedRuns(store, init);
      if last.Sync? {
        assert Documents(log)[..|Documents(log)| - 1] == Documents(init);
        SyncedRuns(Replay(store, init), SyncAll(store, Documents(init)), last.doc);
      }
      assert last.Link? ==> Documents(log) == Documents(init);
      hide Synced;
    }
  }

  ghost predicate SameDocuments(p: seq<Document>, q: seq<Document>) {
    forall d :: d in p <==> d in q
  }

  /** Two runs that answered the same compatible documents end with the same digests, whatever
      the interleavings, repeats and links in between. */
  lemma InterleavingsAgree(store: Store, p: seq<State>, q: seq<State>)
    requires Behaviour(store, p) && Behaviour(store, q)
    requires LiveCompatible(store, Documents(p[|p| - 1].log))
    requires SameDocuments(Documents(p[|p| - 1].log), Documents(q[|q| - 1].log))
    ensures Digests(p[|p| - 1].store) == Digests(q[|q| - 1].store)
  {
    var a, b := p[|p| - 1], q[|q| - 1];
    SyncForgetsOrder(store, Documents(a.log), Documents(b.log));
    assert forall x: Store, y: Store :: x.runs == y.runs ==> Digests(x) == Digests(y);
    hide *;
    Linearizable(store, p, |p| - 1);
    Linearizable(store, q, |q| - 1);
    ReplayedRuns(store, a.log);
    ReplayedRuns(store, b.log);
  }

  // ---- progress --------------------------------------------------------------------------------------------------------

  /** The transaction can execute its next statement now. */
  predicate CanAdvance(s: State, t: nat) {
    Enabled(s, InsertRun(t)) || Enabled(s, LockRow(t)) || Enabled(s, Decide(t)) || Enabled(s, InsertLink(t)) || Enabled(s, Commit(t))
  }

  /** Row and link locks never deadlock: while a request is open, some request can go on. */
  lemma NoDeadlock(s: State, t: nat)
    requires Inv(s) && t in s.txs && Unfinished(s.txs[t])
    ensures exists u :: u in s.txs && CanAdvance(s, u)
  {
  }
}
