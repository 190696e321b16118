/** What a client sees over whole runs of the device flow (cloud/src/auth.rs:552-738): when a poll is told to
    slow down, and how long a code lives. */
module DevicePolls {
  import opened Prelude
  import opened DeviceAuth

  // ---- polls --------------------------------------------------------------------------------------------------

  /** In the step after `trace[j]` a poll of the device, begun at `at`, commits. */
  ghost predicate Commits(trace: seq<State>, j: nat, u: nat, device: string, at: int) {
    && j + 1 < |trace|
    && Enabled(trace[j], FinishPoll(u))
    && trace[j + 1] == After(trace[j], FinishPoll(u))
    && trace[j].polls[u].device == device && trace[j].polls[u].began == at
  }

  /** Such a step lies before `trace[i]`. */
  ghost predicate PolledBefore(trace: seq<State>, i: nat, device: string, at: int) {
    exists j: nat, u: nat :: j < i && Commits(trace, j, u, device, at)
  }

  lemma PolledLonger(trace: seq<State>, i: nat, device: string, at: int)
    ensures PolledBefore(trace, i, device, at) ==> PolledBefore(trace, i + 1, device, at)
  {
    hide Commits;
  }

  predicate LastPolled(s: State, device: string, at: int) {
    device in s.rows && s.rows[device].lastPollAt == Some(at)
  }

  /** The time of the last poll is only ever written by a poll that commits. */
  lemma LastPollStands(s: State, step: Step, device: string, at: int)
    requires Inv(s) && Enabled(s, step) && LastPolled(After(s, step), device, at) && !LastPolled(s, device, at)
    ensures step.FinishPoll? && s.polls[step.t].device == device && s.polls[step.t].began == at
  {
    if step.FinishPoll? { HeldRowIsOpen(s, step.t); }
    hide Inv, EarlyReply, LateReply, CodeFree, Stale, Decidable, RowLater;
  }

  lemma {:induction false} LastPollCommitted(clock: int, trace: seq<State>, i: nat, device: string, at: int)
    requires Behaviour(clock, trace) && i < |trace| && LastPolled(trace[i], device, at)
    ensures PolledBefore(trace, i, device, at)
    decreases i
  {
    NothingPolledAtStart(clock, trace, device, at);
    hide *;
    if LastPolled(trace[i - 1], device, at) {
      LastPollCommitted(clock, trace, i - 1, device, at);
      PolledLonger(trace, i - 1, device, at);
    } else {
      var step := StepAt(clock, trace, i - 1);
      LastPollStands(trace[i - 1], step, device, at);
      CommitsNow(trace, i - 1, step.t, device, at);
    }
  }

  lemma NothingPolledAtStart(clock: int, trace: seq<State>, device: string, at: int)
    requires Behaviour(clock, trace)
    ensures !LastPolled(trace[0], device, at)
  {
  }

  lemma CommitsNow(trace: seq<State>, j: nat, u: nat, device: string, at: int)
    requires j + 1 < |trace| && Enabled(trace[j], FinishPoll(u)) && trace[j + 1] == After(trace[j], FinishPoll(u))
    requires trace[j].polls[u].device == device && trace[j].polls[u].began == at
    ensures PolledBefore(trace, j + 1, device, at)
  {
    assert Commits(trace, j, u, device, at);
  }

  /** No request begins in the future. */
  ghost predicate BeganInPast(s: State) {
    forall t :: t in s.polls && !s.polls[t].Answered? ==> s.polls[t].began <= s.clock
  }

  lemma BeginningsKept(s: State, step: Step)
    requires Enabled(s, step) && BeganInPast(s)
    ensures BeganInPast(After(s, step))
  {
    hide EarlyReply, LateReply, CodeFree, Stale, Decidable, Decided, Polled;
  }

  lemma {:induction false} PollsBeganInPast(clock: int, trace: seq<State>, i: nat)
    requires Behaviour(clock, trace) && i < |trace|
    ensures BeganInPast(trace[i])
    decreases i
  {
    StartIsEmpty(clock, trace);
    hide Behaviour, Enabled, After, Inv;
    if i > 0 {
      PollsBeganInPast(clock, trace, i - 1);
      var step := StepAt(clock, trace, i - 1);
      BeginningsKept(trace[i - 1], step);
    }
  }

  predicate ToldToSlowDown(s: State, t: nat) {
    t in s.polls && s.polls[t].Answered? && s.polls[t].reply == SlowDown
  }

  /** A poll told to slow down met a row that another poll had touched under two seconds before. */
  lemma SlowedByRow(s: State, t: nat) returns (at: int)
    requires Inv(s) && Enabled(s, FinishPoll(t)) && ToldToSlowDown(After(s, FinishPoll(t)), t)
    ensures LastPolled(s, s.polls[t].device, at) && s.clock - at < 2_000_000
  {
    PollMeans(s, t);
    var row := s.rows[s.polls[t].device];
    at := row.lastPollAt.value;
  }

  /** Whoever is told to slow down does have an earlier poll of that code, begun less than two seconds
      before the answer. */
  lemma SlowDownHasCause(clock: int, trace: seq<State>, i: nat, t: nat)
    requires Behaviour(clock, trace) && i + 1 < |trace|
    requires Enabled(trace[i], FinishPoll(t)) && trace[i + 1] == After(trace[i], FinishPoll(t))
    requires ToldToSlowDown(trace[i + 1], t)
    ensures exists at :: PolledBefore(trace, i, trace[i].polls[t].device, at) && trace[i].clock - at < 2_000_000
  {
    Reachable(clock, trace, i);
    hide Behaviour, Inv, After, PolledBefore, LastPolled;
    var at := SlowedByRow(trace[i], t);
    LastPollCommitted(clock, trace, i, trace[i].polls[t].device, at);
  }

  /** Every committed poll of the device before `trace[i]` began at least the announced three seconds
      before `began`. A first poll has none. */
  ghost predicate Patient(trace: seq<State>, i: nat, device: string, began: int) {
    forall at :: PolledBefore(trace, i, device, at) ==> began - at >= 3_000_000
  }

  /** A first poll is never told to slow down, nor is a client that waits the announced interval
      between its polls. */
  lemma PatientPollIsNotSlowed(clock: int, trace: seq<State>, i: nat, t: nat)
    requires Behaviour(clock, trace) && i + 1 < |trace|
    requires Enabled(trace[i], FinishPoll(t)) && trace[i + 1] == After(trace[i], FinishPoll(t))
    requires Patient(trace, i, trace[i].polls[t].device, trace[i].polls[t].began)
    ensures !ToldToSlowDown(trace[i + 1], t)
  {
    PollsBeganInPast(clock, trace, i);
    assert trace[i].polls[t].began <= trace[i].clock;
    hide Behaviour, After, PolledBefore, BeganInPast;
    if ToldToSlowDown(trace[i + 1], t) {
      SlowDownHasCause(clock, trace, i, t);
    }
  }

  // ---- codes ----------------------------------------------------------------------------------------------------

  /** In the step after `trace[j]` the row of a code is inserted, at that moment's clock. */
  ghost predicate Inserts(trace: seq<State>, j: nat, t: nat, device: string, userCode: string, client: string, expiresAt: int) {
    && j + 1 < |trace|
    && Enabled(trace[j], InsertCode(t))
    && trace[j + 1] == After(trace[j], InsertCode(t))
    && trace[j].issues[t].device == device
    && trace[j].issues[t].userCode == userCode && trace[j].issues[t].client == client
    && expiresAt == trace[j].clock + 600_000_000
  }

  ghost predicate InsertedBefore(trace: seq<State>, i: nat, device: string, userCode: string, client: string, expiresAt: int) {
    exists j: nat, t: nat :: j < i && Inserts(trace, j, t, device, userCode, client, expiresAt)
  }

  lemma InsertedLonger(trace: seq<State>, i: nat, device: string, userCode: string, client: string, expiresAt: int)
    ensures InsertedBefore(trace, i, device, userCode, client, expiresAt) ==> InsertedBefore(trace, i + 1, device, userCode, client, expiresAt)
  {
    hide Inserts;
  }

  /** A new row is undecided, unpolled and unused, and holds what its request drew. */
  predicate NewRow(s: State, t: nat, row: Row)
    requires t in s.issues
  {
    && row.userCode == s.issues[t].userCode && row.client == s.issues[t].client && row.expiresAt == s.clock + 600_000_000
    && row.approvedBy == None && row.approvedAt == None && !row.denied && row.consumedAt == None && row.lastPollAt == None
  }

  /** Inserting a code adds its row alone, and does so exactly when no row has its user code. */
  lemma InsertMeans(s: State, t: nat)
    requires Inv(s) && Enabled(s, InsertCode(t))
    ensures var device, next := s.issues[t].device, After(s, InsertCode(t));
      && (device in next.rows <==> forall d :: d in s.rows ==> s.rows[d].userCode != s.issues[t].userCode)
      && next.rows == (if device in next.rows then s.rows[device := next.rows[device]] else s.rows)
      && (device in next.rows ==> NewRow(s, t, next.rows[device]))
  {
    assert s.issues[t].device !in s.rows;
    hide Inv;
  }

  /** Clearing old codes removes exactly those that expired over a day before the request began. */
  lemma PurgeMeans(s: State, t: nat, device: string)
    requires Enabled(s, Purge(t))
    ensures var next := After(s, Purge(t));
      && (device in next.rows <==> device in s.rows && s.rows[device].expiresAt >= s.issues[t].began - 86_400_000_000)
      && (device in next.rows ==> next.rows[device] == s.rows[device])
  {
  }

  /** A decision is taken on an open, unexpired code only, and writes the decision and nothing else; while
      one can be taken it cannot be refused. */
  lemma DecisionMeans(s: State, t: nat, device: string)
    requires Enabled(s, ApplyDecision(t, device))
    ensures device in s.rows && !Enabled(s, RefuseDecision(t))
    ensures var d, row, next := s.decisions[t], s.rows[device], After(s, ApplyDecision(t, device));
      && d.userCode == row.userCode && d.began < row.expiresAt
      && row.approvedBy == None && !row.denied && row.consumedAt == None
      && next.tokens == s.tokens
      && (d.approve ==> next.rows == s.rows[device := row.(approvedBy := Some(d.user), approvedAt := Some(d.began))])
      && (!d.approve ==> next.rows == s.rows[device := row.(denied := true, approvedAt := Some(d.began))])
  {
  }

  predicate SameCode(a: Row, b: Row) {
    a.userCode == b.userCode && a.client == b.client && a.expiresAt == b.expiresAt
  }

  /** A row was there before, or is the one just inserted. */
  lemma RowOrigin(s: State, step: Step, device: string)
    requires Inv(s) && Enabled(s, step) && device in After(s, step).rows
    ensures var row := After(s, step).rows[device];
      (device in s.rows && SameCode(s.rows[device], row))
      || (step.InsertCode? && s.issues[step.t].device == device && NewRow(s, step.t, row))
  {
    match step {
      case FinishPoll(t) => PollMeans(s, t);
      case InsertCode(t) => InsertMeans(s, t);
      case ApplyDecision(t, d) => DecisionMeans(s, t, d);
      case Purge(t) => PurgeMeans(s, t, device);
      case _ => OthersKeepTheRows(s, step);
    }
    hide Inv, Enabled, After, NewRow;
  }

  lemma OthersKeepTheRows(s: State, step: Step)
    requires Enabled(s, step) && !step.FinishPoll? && !step.InsertCode? && !step.ApplyDecision? && !step.Purge?
    ensures After(s, step).rows == s.rows
  {
    hide EarlyReply;
  }

  /** Every code expires exactly ten minutes after its row was inserted, whatever happened to it since. */
  lemma {:induction false} CodesLiveTenMinutes(clock: int, trace: seq<State>, i: nat, device: string)
    requires Behaviour(clock, trace) && i < |trace| && device in trace[i].rows
    ensures var row := trace[i].rows[device];
      InsertedBefore(trace, i, device, row.userCode, row.client, row.expiresAt)
    decreases i
  {
    StartIsEmpty(clock, trace);
    hide Inv, Enabled, After, Behaviour, InsertedBefore;
    var a, row := trace[i - 1], trace[i].rows[device];
    var step := StepAt(clock, trace, i - 1);
    RowOrigin(a, step, device);
    if device in a.rows && SameCode(a.rows[device], row) {
      CodesLiveTenMinutes(clock, trace, i - 1, device);
      InsertedLonger(trace, i - 1, device, row.userCode, row.client, row.expiresAt);
    } else {
      InsertsNow(trace, i - 1, step.t, device, row);
    }
  }

  lemma InsertsNow(trace: seq<State>, j: nat, t: nat, device: string, row: Row)
    requires j + 1 < |trace| && Enabled(trace[j], InsertCode(t)) && trace[j + 1] == After(trace[j], InsertCode(t))
    requires trace[j].issues[t].device == device && NewRow(trace[j], t, row)
    ensures InsertedBefore(trace, j + 1, device, row.userCode, row.client, row.expiresAt)
  {
    assert Inserts(trace, j, t, device, row.userCode, row.client, row.expiresAt);
  }
}
