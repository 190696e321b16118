/** The device authorization flow (cloud/src/auth.rs:539-738), after sections 3.2 to 3.5 of RFC 8628.

    Requests interleave statement by statement over the `device_codes` and `api_tokens` rows. A poll is a
    transaction: it locks its row, and what it writes appears at its commit. Every other request is a
    statement of its own; a statement that needs a locked row waits, keeping the time at which it began. */
module DeviceAuth {
  import opened Prelude

  // Times are microseconds on one clock that never runs backwards.
  const SECOND: int := 1_000_000
  const CODE_LIFETIME: int := 600 * SECOND
  const POLL_INTERVAL: int := 3 * SECOND
  const PURGE_AGE: int := 86_400 * SECOND

  datatype Row = Row(
    userCode: string, client: string, expiresAt: int, lastPollAt: Option<int>,
    approvedBy: Option<string>, approvedAt: Option<int>, denied: bool, consumedAt: Option<int>)

  /** An issued access token, with what it was issued on. */
  datatype Token = Token(device: string, user: string, client: string, approvedAt: Option<int>, checkedAt: int, expiresAt: int)

  datatype Reply = ExpiredToken | AccessDenied | AuthorizationPending | SlowDown | Granted(user: string)

  /** A poll: not yet at its row, holding the row it read, or answered. */
  datatype Poll =
    | Waiting(device: string, began: int)
    | Holding(device: string, began: int, seen: Row, checkedAt: int)
    | Answered(device: string, reply: Reply)

  datatype Decision = Decision(userCode: string, user: string, approve: bool, began: int)

  /** A start request between clearing old rows and inserting its own. */
  datatype Issue = Issue(device: string, userCode: string, client: string, began: int, purged: bool)

  datatype State = State(
    clock: int, rows: map<string, Row>, tokens: seq<Token>, locks: map<string, nat>,
    polls: map<nat, Poll>, decisions: map<nat, Decision>, issues: map<nat, Issue>, used: set<string>)

  datatype Step =
    | Tick(to: int)
    | BeginIssue(t: nat, device: string, userCode: string, client: string)
    | Purge(t: nat)
    | InsertCode(t: nat)
    | BeginDecision(t: nat, userCode: string, user: string, approve: bool)
    | ApplyDecision(t: nat, device: string)
    | RefuseDecision(t: nat)
    | BeginPoll(t: nat, device: string)
    | SelectRow(t: nat)
    | FinishPoll(t: nat)
    | AbortPoll(t: nat)

  // ---- single statements -------------------------------------------------------------------------------

  /** The condition of the approving update. */
  predicate Decidable(row: Row, began: int) {
    row.expiresAt > began && row.approvedBy == None && !row.denied && row.consumedAt == None
  }

  function Decided(row: Row, d: Decision): Row {
    row.(approvedBy := if d.approve then Some(d.user) else None, approvedAt := Some(d.began), denied := !d.approve)
  }

  predicate Stale(row: Row, began: int) {
    row.expiresAt < began - PURGE_AGE
  }

  /** The reply a poll can give on sight of its row, if it goes no further. */
  function EarlyReply(row: Row, clock: int): Option<Reply> {
    if row.consumedAt.Some? || row.expiresAt < clock then Some(ExpiredToken)
    else if row.denied then Some(AccessDenied)
    else None
  }

  function LateReply(row: Row, clock: int): Reply {
    match row.approvedBy
    case Some(user) => Granted(user)
    case None =>
      if row.lastPollAt.Some? && clock - row.lastPollAt.value < POLL_INTERVAL - SECOND then SlowDown else AuthorizationPending
  }

  function Polled(row: Row, began: int): Row {
    var touched := row.(lastPollAt := Some(began));
    if row.approvedBy.Some? then touched.(consumedAt := Some(began)) else touched
  }

  predicate Enabled(s: State, step: Step) {
    match step
    case Tick(to) => to >= s.clock
    case BeginIssue(t, device, _, _) => t !in s.issues && device !in s.used
    case Purge(t) =>
      t in s.issues && !s.issues[t].purged
      && forall d :: d in s.rows && Stale(s.rows[d], s.issues[t].began) ==> d !in s.locks
    case InsertCode(t) => t in s.issues && s.issues[t].purged
    case BeginDecision(t, _, _, _) => t !in s.decisions
    case ApplyDecision(t, device) =>
      t in s.decisions && device in s.rows && device !in s.locks
      && s.rows[device].userCode == s.decisions[t].userCode && Decidable(s.rows[device], s.decisions[t].began)
    case RefuseDecision(t) =>
      t in s.decisions
      && forall d :: d in s.rows && s.rows[d].userCode == s.decisions[t].userCode ==>
           d !in s.locks && !Decidable(s.rows[d], s.decisions[t].began)
    case BeginPoll(t, _) => t !in s.polls
    case SelectRow(t) => t in s.polls && s.polls[t].Waiting? && s.polls[t].device !in s.locks
    case FinishPoll(t) => t in s.polls && s.polls[t].Holding?
    case AbortPoll(t) => t in s.polls && !s.polls[t].Answered?
  }

  predicate CodeFree(s: State, userCode: string) {
    forall d :: d in s.rows ==> s.rows[d].userCode != userCode
  }

  function AfterInsert(s: State, t: nat): State
    requires t in s.issues
  {
    var i := s.issues[t];
    var done := s.(issues := s.issues - {t});
    if CodeFree(s, i.userCode) && i.device !in s.rows then
      done.(rows := s.rows[i.device := Row(i.userCode, i.client, s.clock + CODE_LIFETIME, None, None, None, false, None)])
    else done
  }

  function AfterSelect(s: State, t: nat): State
    requires t in s.polls && s.polls[t].Waiting?
  {
    var p := s.polls[t];
    if p.device !in s.rows then s.(polls := s.polls[t := Answered(p.device, ExpiredToken)])
    else
      var row := s.rows[p.device];
      match EarlyReply(row, s.clock)
      case Some(reply) => s.(polls := s.polls[t := Answered(p.device, reply)])
      case None => s.(polls := s.polls[t := Holding(p.device, p.began, row, s.clock)], locks := s.locks[p.device := t])
  }

  function AfterFinish(s: State, t: nat): State
    requires t in s.polls && s.polls[t].Holding?
  {
    var p := s.polls[t];
    var next := s.(
      rows := s.rows[p.device := Polled(p.seen, p.began)],
      locks := s.locks - {p.device},
      polls := s.polls[t := Answered(p.device, LateReply(p.seen, s.clock))]);
    match p.seen.approvedBy
    case None => next
    case Some(user) =>
      next.(tokens := s.tokens + [Token(p.device, user, p.seen.client, p.seen.approvedAt, p.checkedAt, p.seen.expiresAt)])
  }

  function After(s: State, step: Step): State
    requires Enabled(s, step)
  {
    match step
    case Tick(to) => s.(clock := to)
    case BeginIssue(t, device, userCode, client) =>
      s.(issues := s.issues[t := Issue(device, userCode, client, s.clock, false)], used := s.used + {device})
    case Purge(t) =>
      s.(rows := map d | d in s.rows && !Stale(s.rows[d], s.issues[t].began) :: s.rows[d],
         issues := s.issues[t := s.issues[t].(purged := true)])
    case InsertCode(t) => AfterInsert(s, t)
    case BeginDecision(t, userCode, user, approve) =>
      s.(decisions := s.decisions[t := Decision(userCode, user, approve, s.clock)])
    case ApplyDecision(t, device) =>
      s.(rows := s.rows[device := Decided(s.rows[device], s.decisions[t])], decisions := s.decisions - {t})
    case RefuseDecision(t) => s.(decisions := s.decisions - {t})
    case BeginPoll(t, device) => s.(polls := s.polls[t := Waiting(device, s.clock)])
    case SelectRow(t) => AfterSelect(s, t)
    case FinishPoll(t) => AfterFinish(s, t)
    case AbortPoll(t) =>
      s.(polls := s.polls - {t}, locks := if s.polls[t].Holding? then s.locks - {s.polls[t].device} else s.locks)
  }

  // ---- the invariant --------------------------------------------------------------------------------------

  /** Approved and denied exclude each other, consumed implies approved, and any decision came in time. */
  predicate RowOk(row: Row) {
    && (row.approvedBy.Some? ==> !row.denied)
    && (row.consumedAt.Some? ==> row.approvedBy.Some?)
    && (row.approvedAt.Some? <==> row.approvedBy.Some? || row.denied)
    && (row.approvedAt.Some? ==> row.approvedAt.value < row.expiresAt)
  }

  /** A token was issued on an approval given before the code expired, to a poll that found it unexpired. */
  predicate TokenOk(token: Token) {
    token.approvedAt.Some? && token.approvedAt.value < token.expiresAt && token.checkedAt <= token.expiresAt
  }

  predicate Issued(tokens: seq<Token>, device: string) {
    exists token :: token in tokens && token.device == device
  }

  predicate RowMatchesTokens(row: Row, tokens: seq<Token>, device: string) {
    && (row.consumedAt.Some? <==> Issued(tokens, device))
    && (forall token :: token in tokens && token.device == device ==>
          row.approvedBy == Some(token.user) && row.expiresAt == token.expiresAt)
  }

  ghost predicate RowsOk(rows: map<string, Row>, tokens: seq<Token>, used: set<string>) {
    forall d :: d in rows ==> RowOk(rows[d]) && RowMatchesTokens(rows[d], tokens, d) && d in used
  }

  ghost predicate TokensOk(tokens: seq<Token>, used: set<string>) {
    && (forall i :: 0 <= i < |tokens| ==> TokenOk(tokens[i]) && tokens[i].device in used)
    && (forall i, j :: 0 <= i < j < |tokens| ==> tokens[i].device != tokens[j].device)
  }

  /** Row locks are held by exactly the polls that hold a row, and a held row is as it was read. */
  ghost predicate LocksOk(locks: map<string, nat>, polls: map<nat, Poll>, rows: map<string, Row>) {
    && (forall d :: d in locks ==> locks[d] in polls && polls[locks[d]].Holding? && polls[locks[d]].device == d)
    && (forall t :: t in polls && polls[t].Holding? ==>
          polls[t].device in locks && locks[polls[t].device] == t && HeldOk(rows, polls[t]))
  }

  predicate HeldOk(rows: map<string, Row>, p: Poll)
    requires p.Holding?
  {
    p.device in rows && rows[p.device] == p.seen && EarlyReply(p.seen, p.checkedAt) == None
  }

  /** A code being issued is in no row and no token yet. */
  ghost predicate IssuesOk(issues: map<nat, Issue>, rows: map<string, Row>, tokens: seq<Token>, used: set<string>) {
    && (forall t :: t in issues ==>
          issues[t].device in used && issues[t].device !in rows && !Issued(tokens, issues[t].device))
    && (forall t, u :: t in issues && u in issues && issues[t].device == issues[u].device ==> t == u)
  }

  ghost predicate Inv(s: State) {
    && RowsOk(s.rows, s.tokens, s.used)
    && TokensOk(s.tokens, s.used)
    && LocksOk(s.locks, s.polls, s.rows)
    && IssuesOk(s.issues, s.rows, s.tokens, s.used)
  }

  lemma IssuedPush(tokens: seq<Token>, token: Token)
    ensures forall d :: Issued(tokens + [token], d) <==> Issued(tokens, d) || d == token.device
  {
  }

  lemma PolledOk(row: Row, began: int)
    requires RowOk(row)
    ensures RowOk(Polled(row, began))
  {
  }

  lemma SelectKeeps(s: State, t: nat)
    requires Inv(s) && Enabled(s, SelectRow(t))
    ensures Inv(AfterSelect(s, t))
  {
    SelectLocks(s, t);
    hide RowsOk, TokensOk, IssuesOk, LocksOk;
  }

  lemma LocksAcquire(locks: map<string, nat>, polls: map<nat, Poll>, rows: map<string, Row>, t: nat, p: Poll)
    requires LocksOk(locks, polls, rows) && t in polls && !polls[t].Holding?
    requires p.Holding? && p.device !in locks && HeldOk(rows, p)
    ensures LocksOk(locks[p.device := t], polls[t := p], rows)
  {
    hide EarlyReply;
  }

  lemma LocksIgnore(locks: map<string, nat>, polls: map<nat, Poll>, rows: map<string, Row>, t: nat, p: Poll)
    requires LocksOk(locks, polls, rows) && t in polls && !polls[t].Holding? && !p.Holding?
    ensures LocksOk(locks, polls[t := p], rows)
  {
    hide HeldOk;
  }

  lemma SelectLocks(s: State, t: nat)
    requires Inv(s) && Enabled(s, SelectRow(t))
    ensures var next := AfterSelect(s, t); LocksOk(next.locks, next.polls, next.rows)
  {
    hide RowsOk, TokensOk, IssuesOk, LocksOk;
    var p := AfterSelect(s, t).polls[t];
    if p.Holding? {
      LocksAcquire(s.locks, s.polls, s.rows, t, p);
    } else {
      LocksIgnore(s.locks, s.polls, s.rows, t, p);
    }
  }

  /** What the token-minting commit does to the rows. */
  lemma FinishRows(s: State, t: nat)
    requires Inv(s) && Enabled(s, FinishPoll(t))
    ensures RowsOk(AfterFinish(s, t).rows, AfterFinish(s, t).tokens, s.used)
  {
    var p := s.polls[t];
    assert HeldOk(s.rows, p);
    PolledOk(p.seen, p.began);
    var next := AfterFinish(s, t);
    if p.seen.approvedBy.Some? {
      IssuedPush(s.tokens, next.tokens[|next.tokens| - 1]);
    }
    forall d | d in next.rows ensures RowOk(next.rows[d]) && RowMatchesTokens(next.rows[d], next.tokens, d) && d in s.used {
      assert d in s.rows && RowMatchesTokens(s.rows[d], s.tokens, d);
    }
  }

  lemma FinishTokens(s: State, t: nat)
    requires Inv(s) && Enabled(s, FinishPoll(t))
    ensures TokensOk(AfterFinish(s, t).tokens, s.used)
  {
    var p := s.polls[t];
    assert HeldOk(s.rows, p) && RowOk(s.rows[p.device]) && RowMatchesTokens(s.rows[p.device], s.tokens, p.device);
    assert s.rows[p.device].consumedAt == None;
    assert forall token :: token in s.tokens ==> token.device != p.device;
  }

  /** Releasing a held row, whatever is written to it, leaves the other locks right. */
  lemma LocksRelease(locks: map<string, nat>, polls: map<nat, Poll>, rows: map<string, Row>, t: nat, reply: Reply, row: Row)
    requires LocksOk(locks, polls, rows) && t in polls && polls[t].Holding?
    ensures var device := polls[t].device;
      LocksOk(locks - {device}, polls[t := Answered(device, reply)], rows[device := row])
  {
    hide EarlyReply;
  }

  lemma FinishLocks(s: State, t: nat)
    requires Inv(s) && Enabled(s, FinishPoll(t))
    ensures var next := AfterFinish(s, t); LocksOk(next.locks, next.polls, next.rows)
  {
    var p := s.polls[t];
    LocksRelease(s.locks, s.polls, s.rows, t, LateReply(p.seen, s.clock), Polled(p.seen, p.began));
    hide RowsOk, TokensOk, IssuesOk, LocksOk, LateReply, Polled;
  }

  lemma FinishIssues(s: State, t: nat)
    requires Inv(s) && Enabled(s, FinishPoll(t))
    ensures var next := AfterFinish(s, t); IssuesOk(next.issues, next.rows, next.tokens, next.used)
  {
  }

  lemma InsertKeeps(s: State, t: nat)
    requires Inv(s) && Enabled(s, InsertCode(t))
    ensures Inv(AfterInsert(s, t))
  {
    var i := s.issues[t];
    InsertRows(s, i);
    InsertLocks(s, t);
    InsertIssues(s, t);
    hide CodeFree, TokensOk, RowsOk, LocksOk, IssuesOk;
  }

  lemma InsertLocks(s: State, t: nat)
    requires Inv(s) && Enabled(s, InsertCode(t))
    ensures var next := AfterInsert(s, t); LocksOk(next.locks, next.polls, next.rows)
  {
  }

  lemma InsertIssues(s: State, t: nat)
    requires Inv(s) && Enabled(s, InsertCode(t))
    ensures var next := AfterInsert(s, t); IssuesOk(next.issues, next.rows, next.tokens, next.used)
  {
  }

  lemma InsertRows(s: State, i: Issue)
    requires RowsOk(s.rows, s.tokens, s.used) && i.device in s.used && !Issued(s.tokens, i.device)
    ensures RowsOk(s.rows[i.device := Row(i.userCode, i.client, s.clock + CODE_LIFETIME, None, None, None, false, None)], s.tokens, s.used)
  {
  }

  lemma DecisionKeeps(s: State, t: nat, device: string)
    requires Inv(s) && Enabled(s, ApplyDecision(t, device))
    ensures Inv(After(s, ApplyDecision(t, device)))
  {
  }

  lemma PurgeKeeps(s: State, t: nat)
    requires Inv(s) && Enabled(s, Purge(t))
    ensures Inv(After(s, Purge(t)))
  {
  }

  lemma IssueKeeps(s: State, step: Step)
    requires Inv(s) && Enabled(s, step) && step.BeginIssue?
    ensures Inv(After(s, step))
  {
  }

  lemma OthersKeep(s: State, step: Step)
    requires Inv(s) && Enabled(s, step)
    requires step.Tick? || step.BeginDecision? || step.RefuseDecision? || step.BeginPoll? || step.AbortPoll?
    ensures Inv(After(s, step))
  {
  }

  lemma InvKept(s: State, step: Step)
    requires Inv(s) && Enabled(s, step)
    ensures Inv(After(s, step))
  {
    match step {
      case SelectRow(t) => SelectKeeps(s, t);
      case FinishPoll(t) =>
        FinishRows(s, t);
        FinishTokens(s, t);
        FinishLocks(s, t);
        FinishIssues(s, t);
      case InsertCode(t) => InsertKeeps(s, t);
      case ApplyDecision(t, device) => DecisionKeeps(s, t, device);
      case Purge(t) => PurgeKeeps(s, t);
      case BeginIssue(_, _, _, _) => IssueKeeps(s, step);
      case _ => OthersKeep(s, step);
    }
    hide RowsOk, TokensOk, LocksOk, IssuesOk, AfterSelect, AfterFinish, AfterInsert, Stale, Decided;
  }

  // ---- how rows evolve ---------------------------------------------------------------------------------------

  /** A row some time later: who approved it never changes, and denied and consumed are final. */
  predicate RowLater(a: Row, b: Row) {
    && b.userCode == a.userCode && b.client == a.client && b.expiresAt == a.expiresAt
    && (a.approvedBy.Some? ==> b.approvedBy == a.approvedBy && b.approvedAt == a.approvedAt)
    && (a.denied ==> b.denied && b.approvedBy == None && b == a.(lastPollAt := b.lastPollAt))
    && (a.consumedAt.Some? ==> b == a)
  }

  /** The code's row is still to be inserted. */
  predicate Pending(s: State, device: string) {
    exists t :: t in s.issues && s.issues[t].device == device
  }

  lemma HeldRowIsOpen(s: State, t: nat)
    requires Inv(s) && Enabled(s, FinishPoll(t))
    ensures var p := s.polls[t];
      && p.device in s.rows && s.rows[p.device] == p.seen
      && RowLater(p.seen, Polled(p.seen, p.began)) && p.seen.consumedAt == None && !p.seen.denied
  {
  }

  ghost predicate RowsLater(a: map<string, Row>, b: map<string, Row>) {
    forall d :: d in a && d in b ==> RowLater(a[d], b[d])
  }

  lemma RowsSelf(s: State)
    requires Inv(s)
    ensures RowsLater(s.rows, s.rows)
  {
  }

  lemma RowsEvolve(s: State, step: Step)
    requires Inv(s) && Enabled(s, step)
    ensures RowsLater(s.rows, After(s, step).rows)
  {
    RowsSelf(s);
    if step.FinishPoll? { HeldRowIsOpen(s, step.t); }
    if step.ApplyDecision? { assert RowOk(s.rows[step.device]); }
    assert step.InsertCode? ==> s.issues[step.t].device !in s.rows;
    hide EarlyReply, LateReply, RowsOk, TokensOk, LocksOk, IssuesOk, Polled, CodeFree, Stale;
  }

  lemma TokensGrow(s: State, step: Step)
    requires Enabled(s, step)
    ensures s.tokens <= After(s, step).tokens
  {
    hide EarlyReply, LateReply, Polled, Decided, Decidable, CodeFree, Stale;
  }

  // ---- runs ----------------------------------------------------------------------------------------------------

  function Start(clock: int): State {
    State(clock, map[], [], map[], map[], map[], map[], {})
  }

  ghost predicate Next(a: State, b: State) {
    exists step :: Enabled(a, step) && b == After(a, step)
  }

  ghost predicate Behaviour(clock: int, trace: seq<State>) {
    && trace != [] && trace[0] == Start(clock)
    && forall i :: 0 <= i < |trace| - 1 ==> Next(trace[i], trace[i + 1])
  }

  lemma {:induction false} Reachable(clock: int, trace: seq<State>, i: nat)
    requires Behaviour(clock, trace) && i < |trace|
    ensures Inv(trace[i])
    decreases i
  {
    if i > 0 {
      Reachable(clock, trace, i - 1);
      assert Next(trace[i - 1], trace[i - 1 + 1]);
      hide Inv, Enabled, After;
      var step :| Enabled(trace[i - 1], step) && trace[i] == After(trace[i - 1], step);
      InvKept(trace[i - 1], step);
    }
  }

  /** The step taken at a point of a run, between two states that satisfy the invariant. */
  lemma StepAt(clock: int, trace: seq<State>, j: nat) returns (step: Step)
    requires Behaviour(clock, trace) && j + 1 < |trace|
    ensures Inv(trace[j]) && Inv(trace[j + 1])
    ensures Enabled(trace[j], step) && trace[j + 1] == After(trace[j], step)
  {
    Reachable(clock, trace, j);
    Reachable(clock, trace, j + 1);
    assert Next(trace[j], trace[j + 1]);
    hide Inv, Enabled, After;
    step :| Enabled(trace[j], step) && trace[j + 1] == After(trace[j], step);
  }

  /** Each device code yields at most one token, and only on an approval made before the code expired. */
  lemma OneTokenPerCode(clock: int, trace: seq<State>, i: nat)
    requires Behaviour(clock, trace) && i < |trace|
    ensures forall j, k :: 0 <= j < k < |trace[i].tokens| ==> trace[i].tokens[j].device != trace[i].tokens[k].device
    ensures forall token :: token in trace[i].tokens ==> TokenOk(token)
  {
    Reachable(clock, trace, i);
    hide Behaviour, RowsOk, LocksOk, IssuesOk, TokenOk;
  }

  /** The code has been in use and its row was cleared: no request can bring it back. */
  predicate Gone(s: State, device: string) {
    device in s.used && device !in s.rows && !Pending(s, device)
  }

  lemma PendingBefore(s: State, step: Step)
    requires Enabled(s, step)
    ensures forall d :: Pending(After(s, step), d) ==> Pending(s, d) || (step.BeginIssue? && step.device == d)
  {
  }

  lemma GoneStays(s: State, step: Step, device: string)
    requires Enabled(s, step) && Gone(s, device)
    requires step.FinishPoll? ==> s.polls[step.t].device in s.rows
    ensures Gone(After(s, step), device)
  {
  }

  lemma RowsAreNotPending(s: State, device: string)
    requires Inv(s) && device in s.rows
    ensures device in s.used && !Pending(s, device)
  {
  }

  lemma CommitFindsRow(s: State, step: Step)
    requires Inv(s) && Enabled(s, step) && step.FinishPoll?
    ensures s.polls[step.t].device in s.rows
  {
  }

  lemma RowAfterStep(s: State, step: Step, device: string)
    requires Inv(s) && Enabled(s, step) && device in s.rows
    ensures var next := After(s, step);
      (device in next.rows && RowLater(s.rows[device], next.rows[device])) || Gone(next, device)
  {
    RowsEvolve(s, step);
    RowsAreNotPending(s, device);
    PendingBefore(s, step);
    hide Inv, RowLater, Decided, Polled, EarlyReply, LateReply, CodeFree, Stale, Pending;
  }

  lemma RowLaterTransitive(a: Row, b: Row, c: Row)
    requires RowLater(a, b) && RowLater(b, c)
    ensures RowLater(a, c)
  {
  }

  /** Over any interleaving a row only evolves: its approver never changes, denial and consumption are
      final, and once cleared it stays cleared. */
  lemma {:induction false} RowHistory(clock: int, trace: seq<State>, i: nat, j: nat, device: string)
    requires Behaviour(clock, trace) && i <= j < |trace| && device in trace[i].rows
    ensures (device in trace[j].rows && RowLater(trace[i].rows[device], trace[j].rows[device])) || Gone(trace[j], device)
    decreases j
  {
    hide *;
    if i < j {
      RowHistory(clock, trace, i, j - 1, device);
      var a, b := trace[j - 1], trace[j];
      var step := StepAt(clock, trace, j - 1);
      if Gone(a, device) {
        if step.FinishPoll? { CommitFindsRow(a, step); }
        GoneStays(a, step, device);
      } else {
        RowAfterStep(a, step, device);
        if device in b.rows && !Gone(b, device) { RowLaterTransitive(trace[i].rows[device], a.rows[device], b.rows[device]); }
      }
    } else {
      Reachable(clock, trace, i);
      RowUnchanged(trace[i], device);
    }
  }

  lemma RowUnchanged(s: State, device: string)
    requires Inv(s) && device in s.rows
    ensures RowLater(s.rows[device], s.rows[device])
  {
  }

  lemma MintedFromRow(s: State, step: Step, token: Token)
    requires Inv(s) && Enabled(s, step) && token in After(s, step).tokens && token !in s.tokens
    ensures token.device in After(s, step).rows
    ensures step.FinishPoll? && After(s, step).polls[step.t] == Answered(token.device, Granted(token.user))
  {
    hide Inv, Decided, Polled, EarlyReply, Stale, CodeFree;
  }

  lemma TokenMatchesRow(s: State, token: Token)
    requires Inv(s) && token in s.tokens && token.device in s.rows
    ensures s.rows[token.device].approvedBy == Some(token.user) && !s.rows[token.device].denied
    ensures s.rows[token.device].consumedAt.Some?
  {
  }

  lemma {:induction false} TokensOnlyFromApproval(clock: int, trace: seq<State>, i: nat, j: nat, token: Token)
    requires Behaviour(clock, trace) && i <= j < |trace|
    requires token in trace[j].tokens && token.device in trace[i].rows
    ensures trace[i].rows[token.device].approvedBy.Some? ==> trace[i].rows[token.device].approvedBy == Some(token.user)
    ensures !trace[i].rows[token.device].denied
    decreases j
  {
    hide *;
    if i < j {
      var a, b := trace[j - 1], trace[j];
      if token in a.tokens {
        TokensOnlyFromApproval(clock, trace, i, j - 1, token);
      } else {
        var step := StepAt(clock, trace, j - 1);
        RowHistory(clock, trace, i, j, token.device);
        MintedFromRow(a, step, token);
        TokenMatchesRow(b, token);
        PresentIsNotGone(b, token.device);
        ApproverKept(trace[i].rows[token.device], b.rows[token.device]);
      }
    } else {
      Reachable(clock, trace, i);
      TokenMatchesRow(trace[i], token);
    }
  }

  lemma PresentIsNotGone(s: State, device: string)
    requires device in s.rows
    ensures !Gone(s, device)
  {
  }

  lemma ApproverKept(a: Row, b: Row)
    requires RowLater(a, b)
    ensures a.approvedBy.Some? ==> b.approvedBy == a.approvedBy
    ensures a.denied ==> b.denied
  {
  }

  lemma {:induction false} TokensStay(clock: int, trace: seq<State>, i: nat, j: nat, token: Token)
    requires Behaviour(clock, trace) && i <= j < |trace| && token in trace[i].tokens
    ensures token in trace[j].tokens
    decreases j
  {
    hide *;
    if i < j {
      TokensStay(clock, trace, i, j - 1, token);
      var step := StepAt(clock, trace, j - 1);
      TokensKept(trace[j - 1], step, token);
    }
  }

  lemma TokensKept(s: State, step: Step, token: Token)
    requires Inv(s) && Enabled(s, step) && token in s.tokens
    ensures token in After(s, step).tokens
  {
    TokensGrow(s, step);
    hide After, Inv, Enabled;
  }

  /** Whoever a code is ever seen approved by is the only user its token can be for, and a code ever
      seen denied never yields a token. */
  lemma TokenIsForApprover(clock: int, trace: seq<State>, i: nat, j: nat, token: Token)
    requires Behaviour(clock, trace) && i < |trace| && j < |trace|
    requires token in trace[j].tokens && token.device in trace[i].rows
    ensures trace[i].rows[token.device].approvedBy.Some? ==> trace[i].rows[token.device].approvedBy == Some(token.user)
    ensures !trace[i].rows[token.device].denied
  {
    if i <= j {
      TokensOnlyFromApproval(clock, trace, i, j, token);
    } else {
      TokensStay(clock, trace, j, i, token);
      TokensOnlyFromApproval(clock, trace, i, i, token);
    }
  }

  // ---- where a token comes from --------------------------------------------------------------------------------

  /** In the step after `trace[j]` a user approves the device's code, having asked to before it expired. */
  ghost predicate Approves(trace: seq<State>, j: nat, t: nat, device: string, user: string, at: int, expiresAt: int) {
    && j + 1 < |trace|
    && Enabled(trace[j], ApplyDecision(t, device))
    && trace[j + 1] == After(trace[j], ApplyDecision(t, device))
    && trace[j].decisions[t] == Decision(trace[j].rows[device].userCode, user, true, at)
    && trace[j].rows[device].expiresAt == expiresAt && at < expiresAt
  }

  /** Such a step lies before `trace[i]`. */
  ghost predicate ApprovedBefore(trace: seq<State>, i: nat, device: string, user: string, at: Option<int>, expiresAt: int) {
    at.Some? && exists j: nat, t: nat :: j < i && Approves(trace, j, t, device, user, at.value, expiresAt)
  }

  lemma ApprovedLonger(trace: seq<State>, i: nat, device: string, user: string, at: Option<int>, expiresAt: int)
    ensures ApprovedBefore(trace, i, device, user, at, expiresAt) ==> ApprovedBefore(trace, i + 1, device, user, at, expiresAt)
  {
    hide Approves;
  }

  predicate SameApproval(a: Row, b: Row) {
    a.approvedBy == b.approvedBy && a.approvedAt == b.approvedAt && a.expiresAt == b.expiresAt
  }

  lemma PollKeepsApprovals(s: State, t: nat, device: string)
    requires Inv(s) && Enabled(s, FinishPoll(t)) && device in After(s, FinishPoll(t)).rows
    ensures device in s.rows && SameApproval(s.rows[device], After(s, FinishPoll(t)).rows[device])
  {
    HeldRowIsOpen(s, t);
    hide Inv, LateReply, RowLater;
  }

  lemma OthersKeepRows(s: State, step: Step, device: string)
    requires Enabled(s, step) && !step.ApplyDecision? && !step.FinishPoll? && device in After(s, step).rows
    ensures (device in s.rows && After(s, step).rows[device] == s.rows[device]) || After(s, step).rows[device].approvedBy == None
  {
    hide EarlyReply, LateReply, CodeFree, Stale, Polled, Decided, Decidable;
  }

  /** Apart from a decision, a step only adds undecided rows and leaves approvals as they are. */
  lemma ApprovalsStand(s: State, step: Step, device: string)
    requires Inv(s) && Enabled(s, step) && !step.ApplyDecision?
    requires device in After(s, step).rows && After(s, step).rows[device].approvedBy.Some?
    ensures device in s.rows && SameApproval(s.rows[device], After(s, step).rows[device])
  {
    hide Inv, Enabled, After;
    if step.FinishPoll? {
      PollKeepsApprovals(s, step.t, device);
    } else {
      OthersKeepRows(s, step, device);
    }
  }

  predicate ApprovedHere(s: State, t: nat, device: string, row: Row)
    requires t in s.decisions && device in s.rows
  {
    && row.approvedBy.Some? && row.approvedAt == Some(s.decisions[t].began)
    && s.decisions[t] == Decision(s.rows[device].userCode, row.approvedBy.value, true, s.decisions[t].began)
    && s.rows[device].expiresAt == row.expiresAt && s.decisions[t].began < row.expiresAt
  }

  lemma DecisionApproves(s: State, t: nat, device: string)
    requires Enabled(s, ApplyDecision(t, device))
    ensures var row := After(s, ApplyDecision(t, device)).rows[device];
      row.approvedBy.Some? ==> ApprovedHere(s, t, device, row)
  {
  }

  lemma OtherRowsStand(s: State, t: nat, device: string, other: string)
    requires Enabled(s, ApplyDecision(t, device)) && other != device
    ensures var next := After(s, ApplyDecision(t, device));
      (other in next.rows <==> other in s.rows) && (other in s.rows ==> next.rows[other] == s.rows[other])
  {
    hide Decided;
  }

  lemma {:induction false} RowHasApproval(clock: int, trace: seq<State>, i: nat, device: string)
    requires Behaviour(clock, trace) && i < |trace| && device in trace[i].rows && trace[i].rows[device].approvedBy.Some?
    ensures var row := trace[i].rows[device];
      ApprovedBefore(trace, i, device, row.approvedBy.value, row.approvedAt, row.expiresAt)
    decreases i
  {
    StartIsEmpty(clock, trace);
    hide Inv, Enabled, After, Behaviour;
    var a, b := trace[i - 1], trace[i];
    var row := b.rows[device];
    var step := StepAt(clock, trace, i - 1);
    ApprovedLonger(trace, i - 1, device, row.approvedBy.value, row.approvedAt, row.expiresAt);
    hide Approves;
    if step.ApplyDecision? && step.device == device {
      DecisionApproves(a, step.t, device);
      ApprovesNow(trace, i - 1, step.t, device, row);
      hide ApprovedBefore;
    } else {
      if step.ApplyDecision? {
        OtherRowsStand(a, step.t, step.device, device);
      } else {
        ApprovalsStand(a, step, device);
      }
      hide ApprovedBefore;
      RowHasApproval(clock, trace, i - 1, device);
    }
  }

  lemma ApprovesNow(trace: seq<State>, j: nat, t: nat, device: string, row: Row)
    requires j + 1 < |trace| && Enabled(trace[j], ApplyDecision(t, device))
    requires trace[j + 1] == After(trace[j], ApplyDecision(t, device)) && ApprovedHere(trace[j], t, device, row)
    ensures ApprovedBefore(trace, j + 1, device, row.approvedBy.value, row.approvedAt, row.expiresAt)
  {
    assert Approves(trace, j, t, device, row.approvedBy.value, row.approvedAt.value, row.expiresAt);
  }

  predicate Minted(s: State, token: Token) {
    token in s.tokens
  }

  lemma StartIsEmpty(clock: int, trace: seq<State>)
    requires Behaviour(clock, trace)
    ensures trace[0].rows == map[] && trace[0].polls == map[]
  {
  }

  lemma StartHasNoToken(clock: int, trace: seq<State>, token: Token)
    requires Behaviour(clock, trace)
    ensures !Minted(trace[0], token)
  {
  }

  lemma MintedOnApproval(s: State, step: Step, token: Token)
    requires Inv(s) && Enabled(s, step) && Minted(After(s, step), token) && !Minted(s, token)
    ensures token.device in s.rows
    ensures var row := s.rows[token.device];
      row.approvedBy == Some(token.user) && row.approvedAt == token.approvedAt && row.expiresAt == token.expiresAt
  {
    if step.FinishPoll? { HeldRowIsOpen(s, step.t); }
    hide Inv, Decided, Polled, EarlyReply, LateReply, Stale, CodeFree, RowLater;
  }

  /** Every token goes back to a step in which its user approved its code, having asked to before the
      code expired. */
  lemma {:induction false} TokenHasApproval(clock: int, trace: seq<State>, i: nat, token: Token)
    requires Behaviour(clock, trace) && i < |trace| && Minted(trace[i], token)
    ensures ApprovedBefore(trace, i, token.device, token.user, token.approvedAt, token.expiresAt)
    decreases i
  {
    StartHasNoToken(clock, trace, token);
    hide *;
    if Minted(trace[i - 1], token) {
      ApprovedLonger(trace, i - 1, token.device, token.user, token.approvedAt, token.expiresAt);
      TokenHasApproval(clock, trace, i - 1, token);
    } else {
      MintedAfterApproval(clock, trace, i - 1, token);
    }
  }

  lemma MintedAfterApproval(clock: int, trace: seq<State>, j: nat, token: Token)
    requires Behaviour(clock, trace) && j + 1 < |trace| && Minted(trace[j + 1], token) && !Minted(trace[j], token)
    ensures ApprovedBefore(trace, j + 1, token.device, token.user, token.approvedAt, token.expiresAt)
  {
    hide *;
    var step := StepAt(clock, trace, j);
    MintedOnApproval(trace[j], step, token);
    RowHasApproval(clock, trace, j, token.device);
    ApprovedLonger(trace, j, token.device, token.user, token.approvedAt, token.expiresAt);
  }

  // ---- progress -----------------------------------------------------------------------------------------------

  /** Some poll holding a row can commit now. */
  ghost predicate SomePollCommits(s: State) {
    exists u :: Enabled(s, FinishPoll(u))
  }

  lemma LockedRowsCommit(s: State, device: string)
    requires Inv(s) && device in s.locks
    ensures SomePollCommits(s)
  {
    assert Enabled(s, FinishPoll(s.locks[device]));
  }

  /** No request waits for nothing: each open one can take its next step, or waits for a row that a poll
      is about to release. */
  lemma RequestsProgress(s: State, t: nat)
    requires Inv(s)
    ensures t in s.polls && !s.polls[t].Answered? ==> Enabled(s, SelectRow(t)) || SomePollCommits(s)
    ensures t in s.decisions ==> (exists d :: Enabled(s, ApplyDecision(t, d))) || Enabled(s, RefuseDecision(t)) || SomePollCommits(s)
    ensures t in s.issues ==> Enabled(s, Purge(t)) || Enabled(s, InsertCode(t)) || SomePollCommits(s)
  {
    forall d | d in s.locks ensures SomePollCommits(s) {
      LockedRowsCommit(s, d);
    }
    if t in s.polls && s.polls[t].Holding? { assert Enabled(s, FinishPoll(t)); }
    hide SomePollCommits, Inv, Decidable, Stale;
    if t in s.decisions && !Enabled(s, RefuseDecision(t)) {
      var d :| d in s.rows && s.rows[d].userCode == s.decisions[t].userCode && (d in s.locks || Decidable(s.rows[d], s.decisions[t].began));
      assert d !in s.locks ==> Enabled(s, ApplyDecision(t, d));
    }
  }

  // ---- what one poll does ----------------------------------------------------------------------------------------

  /** A poll is granted to the approver exactly when its row is approved as it commits; the grant consumes
      the code and mints one token. An undecided code is told to slow down exactly when another poll
      committed under two seconds ago, and only the time of the last poll moves. */
  lemma PollMeans(s: State, t: nat)
    requires Inv(s) && Enabled(s, FinishPoll(t))
    ensures s.polls[t].device in s.rows
    ensures var p, next := s.polls[t], After(s, FinishPoll(t));
      var row := s.rows[p.device];
      match row.approvedBy
      case Some(user) =>
        && next.polls == s.polls[t := Answered(p.device, Granted(user))]
        && next.tokens == s.tokens + [Token(p.device, user, row.client, row.approvedAt, p.checkedAt, row.expiresAt)]
        && next.rows == s.rows[p.device := row.(lastPollAt := Some(p.began), consumedAt := Some(p.began))]
      case None =>
        && (next.polls == s.polls[t := Answered(p.device, SlowDown)] <==>
              row.lastPollAt.Some? && s.clock - row.lastPollAt.value < 2_000_000)
        && (next.polls == s.polls[t := Answered(p.device, AuthorizationPending)] <==>
              row.lastPollAt == None || s.clock - row.lastPollAt.value >= 2_000_000)
        && next.tokens == s.tokens
        && next.rows == s.rows[p.device := row.(lastPollAt := Some(p.began))]
  {
    HeldRowIsOpen(s, t);
    AnswersDiffer(s.polls, t, s.polls[t].device);
    hide Inv, RowLater;
  }

  lemma AnswersDiffer(polls: map<nat, Poll>, t: nat, device: string)
    ensures polls[t := Answered(device, SlowDown)] != polls[t := Answered(device, AuthorizationPending)]
  {
    assert polls[t := Answered(device, SlowDown)][t] != polls[t := Answered(device, AuthorizationPending)][t];
  }

  /** What a poll does on sight of its row: an unknown, used or expired code is answered so, a denied one is
      denied, and any other is held for the rest of the poll. No row changes and nothing is minted. */
  lemma SightMeans(s: State, t: nat)
    requires Enabled(s, SelectRow(t))
    ensures var device, next := s.polls[t].device, After(s, SelectRow(t));
      && next.rows == s.rows && next.tokens == s.tokens
      && (next.polls[t] == Answered(device, ExpiredToken) <==>
            device in s.rows ==> s.rows[device].consumedAt.Some? || s.rows[device].expiresAt < s.clock)
      && (next.polls[t] == Answered(device, AccessDenied) <==>
            device in s.rows && s.rows[device].denied && s.rows[device].consumedAt == None && s.rows[device].expiresAt >= s.clock)
      && (next.polls[t].Holding? <==> next.locks != s.locks)
      && (next.polls[t].Holding? <==>
            device in s.rows && !s.rows[device].denied && s.rows[device].consumedAt == None && s.rows[device].expiresAt >= s.clock)
      && (next.polls[t].Holding? ==>
            next.polls[t] == Holding(device, s.polls[t].began, s.rows[device], s.clock) && next.locks == s.locks[device := t])
  {
    assert s.locks[s.polls[t].device := t] != s.locks;
  }

  // ---- what the approver sees --------------------------------------------------------------------------------------

  datatype Shown = Used | Denied | Approved | Expired | PendingDecision

  function ShownState(row: Row, clock: int): Shown {
    if row.consumedAt.Some? then Used
    else if row.denied then Denied
    else if row.approvedBy.Some? then Approved
    else if row.expiresAt < clock then Expired
    else PendingDecision
  }

  /** On every row that can occur the four finished states are what the row says, in whatever order
      they are asked. */
  lemma ShownStateMeans(row: Row, clock: int)
    requires RowOk(row)
    ensures ShownState(row, clock) == Used <==> row.consumedAt.Some?
    ensures ShownState(row, clock) == Denied <==> row.denied
    ensures ShownState(row, clock) == Approved <==> row.approvedBy.Some? && row.consumedAt == None
    ensures ShownState(row, clock) == Expired <==> row.approvedAt == None && row.expiresAt < clock
  {
  }

  /** The page offers a decision exactly when the update would take it, but for the one instant of
      expiry: there the page still says pending and the update refuses. */
  lemma ShownPendingIsDecidable(row: Row, clock: int)
    ensures Decidable(row, clock) <==> ShownState(row, clock) == PendingDecision && row.expiresAt != clock
  {
  }

  // ---- user codes ----------------------------------------------------------------------------------------------------

  predicate IsLetter(c: char) {
    'a' <= c <= 'z' || 'A' <= c <= 'Z'
  }

  function ToUpper(c: char): char {
    if 'a' <= c <= 'z' then (c as int - 32) as char else c
  }

  function LetterOf(c: char): string {
    if IsLetter(c) then [ToUpper(c)] else ""
  }

  function Letters(text: string): string {
    if text == "" then "" else LetterOf(text[0]) + Letters(text[1..])
  }

  function NormalizeCode(text: string): string {
    var letters := Letters(text);
    if |letters| == 8 then Dashed(letters) else ""
  }

  lemma LettersHead(head: char, a: string, b: string)
    ensures ([head] + a + b)[1..] == a + b && [head] + a + b == [head] + (a + b)
    ensures LetterOf(head) + Letters(a) + Letters(b) == LetterOf(head) + (Letters(a) + Letters(b))
  {
  }

  lemma {:induction false} LettersConcat(a: string, b: string)
    ensures Letters(a + b) == Letters(a) + Letters(b)
  {
    hide LetterOf;
    if a == "" {
      assert a + b == b;
    } else {
      LettersConcat(a[1..], b);
      LettersHead(a[0], a[1..], b);
      assert a == [a[0]] + a[1..];
      assert Letters(a + b) == LetterOf(a[0]) + Letters(a[1..] + b);
      assert Letters(a) == LetterOf(a[0]) + Letters(a[1..]);
      hide Letters;
    }
  }

  lemma {:induction false} LettersOfUpper(s: string)
    requires forall c :: c in s ==> 'A' <= c <= 'Z'
    ensures Letters(s) == s
  {
    if s != "" {
      assert s[0] in s && forall c :: c in s[1..] ==> c in s;
      LettersOfUpper(s[1..]);
      assert s == [s[0]] + s[1..];
    }
  }

  function Dashed(letters: string): string
    requires |letters| == 8
  {
    letters[..4] + "-" + letters[4..]
  }

  lemma DashedInjective(a: string, b: string)
    requires |a| == 8 && |b| == 8 && Dashed(a) == Dashed(b)
    ensures a == b
  {
    assert Dashed(a)[..4] == a[..4] && Dashed(b)[..4] == b[..4];
    assert Dashed(a)[5..] == a[4..] && Dashed(b)[5..] == b[4..];
    assert a == a[..4] + a[4..] && b == b[..4] + b[4..];
  }

  lemma DashedLetters(letters: string)
    requires |letters| == 8 && forall c :: c in letters ==> 'A' <= c <= 'Z'
    ensures Letters(Dashed(letters)) == letters
  {
    var a, b := letters[..4], letters[4..];
    assert letters == a + b;
    assert forall c :: c in a || c in b ==> c in letters;
    LettersOfUpper(a);
    LettersOfUpper(b);
    LettersConcat(a + "-", b);
    LettersConcat(a, "-");
    assert Letters("-") == "";
    hide Letters;
  }

  /** Letters are read one by one: an ASCII letter counts as its capital, anything else not at all. */
  lemma LetterByLetter(a: string, c: char, b: string)
    ensures 'A' <= c <= 'Z' ==> Letters(a + [c] + b) == Letters(a) + [c] + Letters(b)
    ensures 'a' <= c <= 'z' ==> Letters(a + [c] + b) == Letters(a) + [(c as int - 'a' as int + 'A' as int) as char] + Letters(b)
    ensures !('a' <= c <= 'z') && !('A' <= c <= 'Z') ==> Letters(a + [c] + b) == Letters(a) + Letters(b)
  {
    LettersConcat(a + [c], b);
    LettersConcat(a, [c]);
    OneLetter(c);
    assert Letters(a) + [] == Letters(a);
    hide *;
  }

  lemma OneLetter(c: char)
    ensures 'A' <= c <= 'Z' ==> Letters([c]) == [c]
    ensures 'a' <= c <= 'z' ==> Letters([c]) == [(c as int - 'a' as int + 'A' as int) as char]
    ensures !('a' <= c <= 'z') && !('A' <= c <= 'Z') ==> Letters([c]) == []
  {
    assert Letters([c]) == LetterOf(c) + Letters([]);
  }

  /** Two groups of four capitals with a dash between them. */
  predicate IsCode(code: string) {
    |code| == 9 && code[4] == '-' && forall i :: 0 <= i < 9 && i != 4 ==> 'A' <= code[i] <= 'Z'
  }

  /** A displayed code normalizes to itself, and a text normalizes to it exactly when it spells the same
      eight letters, whatever its case and punctuation. */
  lemma CodesNormalize(code: string, typed: string)
    requires IsCode(code)
    ensures NormalizeCode(code) == code
    ensures NormalizeCode(typed) == code <==> Letters(typed) == code[..4] + code[5..]
  {
    var letters := code[..4] + code[5..];
    assert forall i :: 0 <= i < 8 ==> letters[i] == if i < 4 then code[i] else code[i + 1];
    assert Dashed(letters) == code;
    LettersNormalize(letters, typed);
    hide *;
  }

  lemma LettersNormalize(letters: string, typed: string)
    requires |letters| == 8 && forall c :: c in letters ==> 'A' <= c <= 'Z'
    ensures NormalizeCode(Dashed(letters)) == Dashed(letters)
    ensures NormalizeCode(typed) == Dashed(letters) <==> Letters(typed) == letters
  {
    DashedLetters(letters);
    assert |Dashed(letters)| == 9;
    hide Letters;
    var l := Letters(typed);
    assert |l| == 8 ==> NormalizeCode(typed) == Dashed(l);
    assert |l| != 8 ==> NormalizeCode(typed) == "";
    hide Dashed;
    if |l| == 8 && Dashed(l) == Dashed(letters) {
      DashedInjective(l, letters);
    }
  }
}
