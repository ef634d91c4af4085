/** Concurrent platform commands, interleaved statement by statement around the advisory lock that
    `lookupIdempotency` takes per key. What a command does to the identity tables is left open here: it
    may succeed with any result or end in any refusal. The answer to COMMIT may be lost. */
module PlatformConcurrency {
  import opened Common
  import opened PlatformControlPlane
  import opened PlatformRuns

  type TxId = nat

  /** How far a transaction is, with what it has read or inserted and not yet committed. */
  datatype Phase =
    | Begun
    | Admitted                                   // the actor is an active operator
    | Locked                                     // `pg_advisory_xact_lock` has returned
    | Answering(row: StoredResult)               // the lookup returned a committed row
    | Absent                                     // it returned none
    | Refused(outcome: Outcome)                  // the command does not succeed
    | Inserted(audit: AuditRow, result: Receipt) // the audit row and the idempotency row are inserted

  datatype Tx = Tx(command: Command, phase: Phase)

  /** The transactions in the order in which they end. */
  datatype Event = Event(command: Command, outcome: Outcome, answered: bool)

  /** What the caller is told: of a failure, too, if the answer to COMMIT is lost. */
  function Told(e: Event): Outcome {
    if e.answered then e.outcome else Failed
  }

  datatype Rows = Rows(audit: map<Id, AuditRow>, idempotency: map<Key, StoredResult>)

  /** `rows` are the committed ones. */
  datatype State = State(operators: set<Id>, rows: Rows, live: map<TxId, Tx>, locks: map<Key, TxId>, log: seq<Event>)

  datatype Action =
    | Begin(command: Command) | Deny | Admit | Lock | Look
    | Refuse(outcome: Outcome)
    | Insert(audit: AuditRow, result: Receipt)
    | Commit(answered: bool) | Abort

  function KeyOf(tx: Tx): Key {
    tx.command.IdempotencyKey()
  }

  predicate IsRefusal(outcome: Outcome) {
    !outcome.Success? && outcome !in {Forbidden, IdempotencyConflict, Failed}
  }

  /** Whether transaction `id` can take this step now. Waiting, for the lock or for the holder of a
      primary key, is a step that is not enabled; a violated key leaves only `Abort`. */
  ghost predicate Enabled(s: State, id: TxId, action: Action) {
    if action.Begin? then id !in s.live
    else
      && id in s.live
      && var tx := s.live[id];
      match action
      case Begin(_) => true
      case Deny => tx.phase == Begun && tx.command.actor !in s.operators
      case Admit => tx.phase == Begun && tx.command.actor in s.operators
      case Lock => tx.phase == Admitted && KeyOf(tx) !in s.locks
      case Look => tx.phase == Locked
      case Refuse(outcome) => tx.phase == Absent && IsRefusal(outcome)
      case Insert(audit, _) =>
        && tx.phase == Absent && Audits(audit, tx.command)
        && AuditIdIsFree(s, tx.command.auditId) && KeyIsFree(s, KeyOf(tx))
      case Commit(_) => tx.phase.Answering? || tx.phase.Refused? || tx.phase.Inserted?
      case Abort => true
  }

  predicate AuditIdIsFree(s: State, auditId: Id) {
    auditId !in s.rows.audit && forall other :: other in s.live && s.live[other].phase.Inserted? ==> s.live[other].command.auditId != auditId
  }

  predicate KeyIsFree(s: State, key: Key) {
    key !in s.rows.idempotency && forall other :: other in s.live && s.live[other].phase.Inserted? ==> KeyOf(s.live[other]) != key
  }

  function AnswerFrom(row: StoredResult, command: Command): Outcome {
    if row.fingerprint == command.request then Success(row.result, true) else IdempotencyConflict
  }

  /** What COMMIT makes of a transaction in its last phase. */
  function OutcomeOf(tx: Tx): Outcome {
    match tx.phase
    case Answering(row) => AnswerFrom(row, tx.command)
    case Refused(outcome) => outcome
    case Inserted(_, result) => Success(result, false)
    case _ => Failed
  }

  function Written(rows: Rows, command: Command, audit: AuditRow, result: Receipt): Rows {
    Rows(rows.audit[command.auditId := audit], rows.idempotency[command.IdempotencyKey() := StoredResult(command.request, result)])
  }

  function To(s: State, id: TxId, phase: Phase): State
    requires id in s.live
  {
    s.(live := s.live[id := s.live[id].(phase := phase)])
  }

  /** The end of a transaction also releases its lock. */
  function End(s: State, id: TxId, rows: Rows, outcome: Outcome, answered: bool): State
    requires id in s.live
  {
    State(s.operators, rows, s.live - {id}, map key | key in s.locks && s.locks[key] != id :: s.locks[key],
          s.log + [Event(s.live[id].command, outcome, answered)])
  }

  /** Each statement reads what is committed when it starts. */
  ghost function Step(s: State, id: TxId, action: Action): State
    requires Enabled(s, id, action)
  {
    match action
    case Begin(command) => s.(live := s.live[id := Tx(command, Begun)])
    case Deny => End(s, id, s.rows, Forbidden, true)
    case Admit => To(s, id, Admitted)
    case Lock => To(s, id, Locked).(locks := s.locks[KeyOf(s.live[id]) := id])
    case Look =>
      var key := KeyOf(s.live[id]);
      To(s, id, if key in s.rows.idempotency then Answering(s.rows.idempotency[key]) else Absent)
    case Refuse(outcome) => To(s, id, Refused(outcome))
    case Insert(audit, result) => To(s, id, Inserted(audit, result))
    case Commit(answered) =>
      var tx := s.live[id];
      var rows := if tx.phase.Inserted? then Written(s.rows, tx.command, tx.phase.audit, tx.phase.result) else s.rows;
      End(s, id, rows, OutcomeOf(tx), answered)
    case Abort => End(s, id, s.rows, Failed, true)
  }

  // ---- Serial runs ----

  /** A command that runs alone on these rows may end like this. */
  ghost predicate Explains(operators: set<Id>, before: Rows, e: Event, after: Rows) {
    var c := e.command;
    var key := c.IdempotencyKey();
    if e.outcome == Failed then after == before
    else if e.outcome == Forbidden then after == before && c.actor !in operators
    else
      && c.actor in operators
      && if key in before.idempotency then after == before && e.outcome == AnswerFrom(before.idempotency[key], c)
         else if e.outcome.Success? then
           && IsFresh(e.outcome) && c.auditId !in before.audit && c.auditId in after.audit && Audits(after.audit[c.auditId], c)
           && after == Written(before, c, after.audit[c.auditId], e.outcome.result)
         else after == before && IsRefusal(e.outcome)
  }

  /** Running the logged commands one after the other gives the logged outcomes and these rows. */
  ghost predicate Serial(operators: set<Id>, before: Rows, log: seq<Event>, after: Rows)
    decreases |log|
  {
    if log == [] then before == after
    else
      var front, last := log[..|log| - 1], log[|log| - 1];
      exists mid :: Serial(operators, before, front, mid) && Explains(operators, mid, last, after)
  }

  lemma {:induction false} SerialSnoc(operators: set<Id>, before: Rows, log: seq<Event>, mid: Rows, e: Event, after: Rows)
    requires Serial(operators, before, log, mid) && Explains(operators, mid, e, after)
    ensures Serial(operators, before, log + [e], after)
  {
    assert (log + [e])[..|log|] == log;
    hide Explains;
  }

  /** The transaction function of the commands is one way to run alone. */
  lemma TransactIsExplained(t: Tables, c: Command, answered: bool)
    requires Inv(t)
    ensures var (after, outcome) := Transact(t, c);
            after.operators == t.operators
            && Explains(t.operators, Rows(t.audit, t.idempotency), Event(c, outcome, answered), Rows(after.audit, after.idempotency))
  {
    if IsFresh(Transact(t, c).1) {
      FreshSuccessRecords(t, c);
    } else {
      OnlyFreshSuccessWrites(t, c);
      OtherwiseRefused(t, c);
    }
    hide Perform, Transact, Inv;
  }

  lemma OtherwiseRefused(t: Tables, c: Command)
    requires !IsFresh(Transact(t, c).1)
    ensures var outcome := Transact(t, c).1;
            outcome == Failed || (outcome == Forbidden && c.actor !in t.operators)
            || (c.actor in t.operators
                && if c.IdempotencyKey() in t.idempotency then outcome == AnswerFrom(t.idempotency[c.IdempotencyKey()], c) else IsRefusal(outcome))
  {
    PerformRecords(t, c);
    PerformRefuses(t, c);
    hide Perform;
  }

  lemma PerformRefuses(t: Tables, c: Command)
    ensures var outcome := Perform(t, c).1; outcome.Success? || outcome == Failed || IsRefusal(outcome)
  {
  }

  // ---- The invariant of interleaved runs ----

  predicate HoldsLock(tx: Tx) {
    !tx.phase.Begun? && !tx.phase.Admitted?
  }

  ghost predicate TxInv(s: State, id: TxId)
    requires id in s.live
  {
    var tx := s.live[id];
    var key := KeyOf(tx);
    && (tx.phase != Begun ==> tx.command.actor in s.operators)
    && (HoldsLock(tx) ==> key in s.locks && s.locks[key] == id)
    && (tx.phase.Answering? ==> key in s.rows.idempotency && s.rows.idempotency[key] == tx.phase.row)
    && (tx.phase.Absent? || tx.phase.Refused? || tx.phase.Inserted? ==> key !in s.rows.idempotency)
    && (tx.phase.Refused? ==> IsRefusal(tx.phase.outcome))
    && (tx.phase.Inserted? ==> Audits(tx.phase.audit, tx.command) && tx.command.auditId !in s.rows.audit)
  }

  /** Two transactions with inserted audit rows have inserted different ones. */
  ghost predicate Apart(s: State, a: TxId, b: TxId)
    requires a in s.live && b in s.live
  {
    s.live[a].phase.Inserted? && s.live[b].phase.Inserted? ==> s.live[a].command.auditId != s.live[b].command.auditId
  }

  /** A lock is held by a live transaction on that key. */
  ghost predicate LockInv(s: State, key: Key)
    requires key in s.locks
  {
    s.locks[key] in s.live && HoldsLock(s.live[s.locks[key]]) && KeyOf(s.live[s.locks[key]]) == key
  }

  ghost predicate RunInv(initial: Rows, s: State) {
    && (forall id :: id in s.live ==> TxInv(s, id))
    && (forall key :: key in s.locks ==> LockInv(s, key))
    && (forall a, b :: a in s.live && b in s.live && a != b ==> Apart(s, a, b))
    && Serial(s.operators, initial, s.log, s.rows)
  }

  lemma EndedTx(s: State, id: TxId, rows: Rows, outcome: Outcome, answered: bool, other: TxId)
    requires id in s.live && other in s.live && other != id && TxInv(s, id) && TxInv(s, other)
    requires rows == s.rows || (s.live[id].phase.Inserted? && Apart(s, id, other)
                                && rows == Written(s.rows, s.live[id].command, s.live[id].phase.audit, s.live[id].phase.result))
    ensures TxInv(End(s, id, rows, outcome, answered), other)
  {
  }

  lemma EndedLock(s: State, id: TxId, rows: Rows, outcome: Outcome, answered: bool, key: Key)
    requires id in s.live && key in s.locks && s.locks[key] != id && LockInv(s, key)
    ensures LockInv(End(s, id, rows, outcome, answered), key)
  {
  }

  lemma EndKeepsInv(initial: Rows, s: State, id: TxId, rows: Rows, outcome: Outcome, answered: bool)
    requires RunInv(initial, s) && id in s.live && Explains(s.operators, s.rows, Event(s.live[id].command, outcome, answered), rows)
    requires rows == s.rows || (s.live[id].phase.Inserted?
                                && rows == Written(s.rows, s.live[id].command, s.live[id].phase.audit, s.live[id].phase.result))
    ensures RunInv(initial, End(s, id, rows, outcome, answered))
  {
    var next := End(s, id, rows, outcome, answered);
    SerialSnoc(s.operators, initial, s.log, s.rows, Event(s.live[id].command, outcome, answered), rows);
    hide Serial, Explains, TxInv, LockInv, Written;
    forall other | other in next.live
      ensures TxInv(next, other)
    {
      assert Apart(s, id, other);
      EndedTx(s, id, rows, outcome, answered, other);
    }
    forall key | key in next.locks
      ensures LockInv(next, key)
    {
      EndedLock(s, id, rows, outcome, answered, key);
    }
    forall a, b | a in next.live && b in next.live && a != b
      ensures Apart(next, a, b)
    {
      assert Apart(s, a, b);
    }
  }

  predicate Moves(action: Action) {
    !action.Deny? && !action.Commit? && !action.Abort?
  }

  lemma MovedTx(initial: Rows, s: State, id: TxId, action: Action, other: TxId)
    requires RunInv(initial, s) && Enabled(s, id, action) && Moves(action) && other in Step(s, id, action).live
    ensures TxInv(Step(s, id, action), other)
  {
    assert !action.Begin? ==> TxInv(s, id);
    assert other != id ==> TxInv(s, other);
    hide Serial, LockInv, Apart;
  }

  lemma MovedLock(initial: Rows, s: State, id: TxId, action: Action, key: Key)
    requires RunInv(initial, s) && Enabled(s, id, action) && Moves(action) && key in Step(s, id, action).locks
    ensures LockInv(Step(s, id, action), key)
  {
    assert key in s.locks ==> LockInv(s, key);
    hide Serial, TxInv, Apart;
  }

  lemma MovedApart(initial: Rows, s: State, id: TxId, action: Action, a: TxId, b: TxId)
    requires RunInv(initial, s) && Enabled(s, id, action) && Moves(action) && a != b
    requires a in Step(s, id, action).live && b in Step(s, id, action).live
    ensures Apart(Step(s, id, action), a, b)
  {
    assert a in s.live && b in s.live ==> Apart(s, a, b);
    hide Serial, TxInv, LockInv;
  }

  lemma MoveKeepsInv(initial: Rows, s: State, id: TxId, action: Action)
    requires RunInv(initial, s) && Enabled(s, id, action) && Moves(action)
    ensures RunInv(initial, Step(s, id, action))
  {
    var next := Step(s, id, action);
    assert next.log == s.log && next.rows == s.rows && next.operators == s.operators;
    hide Serial, TxInv, LockInv, Apart, Enabled, Step;
    forall other | other in next.live
      ensures TxInv(next, other)
    {
      MovedTx(initial, s, id, action, other);
    }
    forall key | key in next.locks
      ensures LockInv(next, key)
    {
      MovedLock(initial, s, id, action, key);
    }
    forall a, b | a in next.live && b in next.live && a != b
      ensures Apart(next, a, b)
    {
      MovedApart(initial, s, id, action, a, b);
    }
  }

  lemma CommitIsExplained(s: State, id: TxId, answered: bool)
    requires id in s.live && TxInv(s, id) && Enabled(s, id, Commit(answered))
    ensures Explains(s.operators, s.rows, Event(s.live[id].command, OutcomeOf(s.live[id]), answered), Step(s, id, Commit(answered)).rows)
  {
  }

  lemma StepKeepsInv(initial: Rows, s: State, id: TxId, action: Action)
    requires RunInv(initial, s) && Enabled(s, id, action)
    ensures RunInv(initial, Step(s, id, action))
  {
    hide Serial, LockInv, Apart;
    if Moves(action) {
      MoveKeepsInv(initial, s, id, action);
    } else if action.Commit? {
      CommitIsExplained(s, id, action.answered);
      hide TxInv, Explains, Written;
      EndKeepsInv(initial, s, id, Step(s, id, action).rows, OutcomeOf(s.live[id]), action.answered);
    } else {
      EndKeepsInv(initial, s, id, s.rows, if action.Deny? then Forbidden else Failed, true);
    }
  }

  // ---- Runs ----

  datatype Move = Move(id: TxId, action: Action)

  ghost predicate IsPath(states: seq<State>, moves: seq<Move>) {
    && |states| == |moves| + 1
    && forall i :: 0 <= i < |moves| ==>
         Enabled(states[i], moves[i].id, moves[i].action) && states[i + 1] == Step(states[i], moves[i].id, moves[i].action)
  }

  ghost predicate IsRun(states: seq<State>, moves: seq<Move>) {
    IsPath(states, moves) && states[0].live == map[] && states[0].locks == map[] && states[0].log == []
  }

  lemma {:induction false} RunKeepsInv(states: seq<State>, moves: seq<Move>, k: nat)
    requires IsRun(states, moves) && k < |states|
    ensures RunInv(states[0].rows, states[k]) && states[k].operators == states[0].operators
  {
    if k > 0 {
      RunKeepsInv(states, moves, k - 1);
      hide RunInv, Enabled;
      StepKeepsInv(states[0].rows, states[k - 1], moves[k - 1].id, moves[k - 1].action);
    }
  }

  /** Every interleaving is serializable by key: its log, in the order in which the transactions end, is
      a run of the commands one after the other, to the committed rows. */
  lemma InterleavingsAreSerial(states: seq<State>, moves: seq<Move>, k: nat)
    requires IsRun(states, moves) && k < |states|
    ensures Serial(states[0].operators, states[0].rows, states[k].log, states[k].rows)
  {
    RunKeepsInv(states, moves, k);
  }

  /** Behind the advisory lock the primary key on idempotency rows is never violated and never waited
      for: an insert depends on its audit id alone. */
  lemma LockSuffices(states: seq<State>, moves: seq<Move>, k: nat, id: TxId)
    requires IsRun(states, moves) && k < |states| && id in states[k].live && states[k].live[id].phase == Absent
    ensures KeyIsFree(states[k], KeyOf(states[k].live[id]))
  {
    RunKeepsInv(states, moves, k);
    var s := states[k];
    assert TxInv(s, id);
    forall other | other in s.live && s.live[other].phase.Inserted?
      ensures KeyOf(s.live[other]) != KeyOf(s.live[id])
    {
      assert TxInv(s, other);
    }
  }

  // ---- What serial runs, and so all interleavings, keep ----

  function Fresh(log: seq<Event>): nat {
    if log == [] then 0 else Fresh(log[..|log| - 1]) + (if IsFresh(log[|log| - 1].outcome) then 1 else 0)
  }

  lemma ExplainedRows(operators: set<Id>, before: Rows, e: Event, after: Rows)
    requires Explains(operators, before, e, after)
    ensures forall key :: key in before.idempotency ==> key in after.idempotency && after.idempotency[key] == before.idempotency[key]
    ensures forall id :: id in before.audit ==> id in after.audit && after.audit[id] == before.audit[id]
    ensures e.outcome.Success? ==>
              && e.command.IdempotencyKey() in after.idempotency
              && after.idempotency[e.command.IdempotencyKey()] == StoredResult(e.command.request, e.outcome.result)
    ensures |after.idempotency| == |before.idempotency| + Fresh([e]) && |after.audit| == |before.audit| + Fresh([e])
  {
    assert [e][..0] == [];
  }

  /** Rows are only ever added, one of each kind for each fresh success, and each success agrees with
      the row of its key. */
  lemma {:induction false} RowsMatchFreshSuccesses(operators: set<Id>, before: Rows, log: seq<Event>, after: Rows)
    requires Serial(operators, before, log, after)
    ensures forall key :: key in before.idempotency ==> key in after.idempotency && after.idempotency[key] == before.idempotency[key]
    ensures forall id :: id in before.audit ==> id in after.audit && after.audit[id] == before.audit[id]
    ensures forall i :: 0 <= i < |log| && log[i].outcome.Success? ==>
              && log[i].command.IdempotencyKey() in after.idempotency
              && after.idempotency[log[i].command.IdempotencyKey()] == StoredResult(log[i].command.request, log[i].outcome.result)
    ensures |after.idempotency| == |before.idempotency| + Fresh(log) && |after.audit| == |before.audit| + Fresh(log)
    decreases |log|
  {
    if log != [] {
      var last := log[|log| - 1];
      var mid :| Serial(operators, before, log[..|log| - 1], mid) && Explains(operators, mid, last, after);
      hide Serial, Explains;
      RowsMatchFreshSuccesses(operators, before, log[..|log| - 1], mid);
      ExplainedRows(operators, mid, last, after);
      assert [last][..0] == [];
      forall i | 0 <= i < |log| && log[i].outcome.Success?
        ensures log[i].command.IdempotencyKey() in after.idempotency
        ensures after.idempotency[log[i].command.IdempotencyKey()] == StoredResult(log[i].command.request, log[i].outcome.result)
      {
        assert i < |log| - 1 ==> log[..|log| - 1][i] == log[i];
      }
    }
  }

  /** The rows that event `j` finds. */
  lemma {:induction false} FoundBy(operators: set<Id>, before: Rows, log: seq<Event>, after: Rows, j: nat) returns (found: Rows, left: Rows)
    requires Serial(operators, before, log, after) && j < |log|
    ensures Serial(operators, before, log[..j], found) && Explains(operators, found, log[j], left)
    decreases |log|
  {
    var mid :| Serial(operators, before, log[..|log| - 1], mid) && Explains(operators, mid, log[|log| - 1], after);
    if j == |log| - 1 {
      found, left := mid, after;
    } else {
      hide Explains;
      found, left := FoundBy(operators, before, log[..|log| - 1], mid, j);
      assert log[..|log| - 1][..j] == log[..j];
    }
  }

  /** Behind a success for a key, whether or not its caller was told, no command executes for that key
      again: it is answered with the stored result, or with a conflict if it asks for something else,
      unless it is rolled back. */
  lemma {:induction false} LaterIsDecided(operators: set<Id>, before: Rows, log: seq<Event>, after: Rows, i: nat, j: nat)
    requires Serial(operators, before, log, after) && i < j < |log| && log[i].outcome.Success?
    requires log[i].command.IdempotencyKey() == log[j].command.IdempotencyKey()
    ensures log[j].outcome == Failed || log[j].outcome == AnswerFrom(StoredResult(log[i].command.request, log[i].outcome.result), log[j].command)
  {
    var found, left := FoundBy(operators, before, log, after, j);
    RowsMatchFreshSuccesses(operators, before, log[..j], found);
    assert log[..j][i] == log[i];
    var found1, left1 := FoundBy(operators, before, log, after, i);
    hide Serial;
  }

  /** Under every interleaving, with answers to COMMIT lost anywhere: a key succeeds afresh at most once,
      and a caller who submits the command of a success again is told of the stored result, or of a
      failure if that attempt is rolled back or its own answer is lost. */
  lemma RetryGetsTheResult(states: seq<State>, moves: seq<Move>, k: nat, i: nat, j: nat)
    requires IsRun(states, moves) && k < |states| && i < j < |states[k].log|
    requires states[k].log[i].outcome.Success? && states[k].log[i].command.IdempotencyKey() == states[k].log[j].command.IdempotencyKey()
    ensures var first, again := states[k].log[i], states[k].log[j];
            && !IsFresh(again.outcome)
            && (again.outcome == Failed || again.outcome == AnswerFrom(StoredResult(first.command.request, first.outcome.result), again.command))
            && (again.command.request == first.command.request ==> Told(again) in {Success(first.outcome.result, true), Failed})
  {
    InterleavingsAreSerial(states, moves, k);
    LaterIsDecided(states[0].operators, states[0].rows, states[k].log, states[k].rows, i, j);
    hide Serial, IsRun;
  }

  /** The moves of a command on a new key that nothing disturbs. */
  function CommandMoves(id: TxId, command: Command, audit: AuditRow, result: Receipt): seq<Move> {
    [Move(id, Begin(command)), Move(id, Admit), Move(id, Lock), Move(id, Look), Move(id, Insert(audit, result)), Move(id, Commit(true))]
  }

  function With(s: State, id: TxId, command: Command, phase: Phase): State {
    s.(live := s.live[id := Tx(command, phase)])
  }

  function Locking(s: State, id: TxId, command: Command, phase: Phase): State {
    With(s, id, command, phase).(locks := s.locks[command.IdempotencyKey() := id])
  }

  lemma CommandLocks(s: State, id: TxId, command: Command)
    requires id !in s.live && command.actor in s.operators && command.IdempotencyKey() !in s.locks
    ensures Enabled(s, id, Begin(command)) && Step(s, id, Begin(command)) == With(s, id, command, Begun)
    ensures Enabled(With(s, id, command, Begun), id, Admit) && Step(With(s, id, command, Begun), id, Admit) == With(s, id, command, Admitted)
    ensures Enabled(With(s, id, command, Admitted), id, Lock)
    ensures Step(With(s, id, command, Admitted), id, Lock) == Locking(s, id, command, Locked)
  {
  }

  lemma CommandInserts(s: State, id: TxId, command: Command, audit: AuditRow, result: Receipt)
    requires id !in s.live && Audits(audit, command) && AuditIdIsFree(s, command.auditId) && KeyIsFree(s, command.IdempotencyKey())
    ensures Enabled(Locking(s, id, command, Locked), id, Look)
    ensures Step(Locking(s, id, command, Locked), id, Look) == Locking(s, id, command, Absent)
    ensures Enabled(Locking(s, id, command, Absent), id, Insert(audit, result))
    ensures Step(Locking(s, id, command, Absent), id, Insert(audit, result)) == Locking(s, id, command, Inserted(audit, result))
  {
    hide Audits;
  }

  lemma Released(s: State, id: TxId, command: Command, phase: Phase, rows: Rows, outcome: Outcome)
    requires id !in s.live && command.IdempotencyKey() !in s.locks && forall key :: key in s.locks ==> s.locks[key] != id
    ensures End(Locking(s, id, command, phase), id, rows, outcome, true) ==
            State(s.operators, rows, s.live, s.locks, s.log + [Event(command, outcome, true)])
  {
    var holding := Locking(s, id, command, phase);
    assert holding.live - {id} == s.live;
    assert (map key | key in holding.locks && holding.locks[key] != id :: holding.locks[key]) == s.locks;
  }

  /** A command on a key that is new and not locked goes through, whatever others are doing, and leaves its
      row. */
  lemma UndisturbedCommand(s: State, id: TxId, command: Command, audit: AuditRow, result: Receipt) returns (states: seq<State>)
    requires id !in s.live && command.actor in s.operators && Audits(audit, command)
    requires AuditIdIsFree(s, command.auditId) && KeyIsFree(s, command.IdempotencyKey()) && command.IdempotencyKey() !in s.locks
    requires forall key :: key in s.locks ==> s.locks[key] in s.live
    ensures IsPath(states, CommandMoves(id, command, audit, result)) && states[0] == s
    ensures states[6] == State(s.operators, Written(s.rows, command, audit, result), s.live, s.locks,
                               s.log + [Event(command, Success(result, false), true)])
  {
    CommandLocks(s, id, command);
    CommandInserts(s, id, command, audit, result);
    Released(s, id, command, Inserted(audit, result), Written(s.rows, command, audit, result), Success(result, false));
    var inserted := Locking(s, id, command, Inserted(audit, result));
    assert Enabled(inserted, id, Commit(true));
    assert Step(inserted, id, Commit(true)) == End(inserted, id, Written(s.rows, command, audit, result), Success(result, false), true);
    hide With, Locking, Enabled, Step, Audits, AuditIdIsFree, KeyIsFree, Written, End;
    states := [s, With(s, id, command, Begun), With(s, id, command, Admitted), Locking(s, id, command, Locked), Locking(s, id, command, Absent),
               inserted, Step(inserted, id, Commit(true))];
  }

  /** The moves of a retry that nothing disturbs. */
  function RetryMoves(id: TxId, command: Command): seq<Move> {
    [Move(id, Begin(command)), Move(id, Admit), Move(id, Lock), Move(id, Look), Move(id, Commit(true))]
  }

  /** Such a retry is possible whenever no other transaction has locked the key of the row, and its
      caller is told what the row says. */
  lemma UndisturbedRetry(s: State, id: TxId, command: Command) returns (states: seq<State>)
    requires id !in s.live && command.actor in s.operators && command.IdempotencyKey() in s.rows.idempotency && command.IdempotencyKey() !in s.locks
    ensures IsPath(states, RetryMoves(id, command)) && states[0] == s && states[5].rows == s.rows
    ensures states[5].log == s.log + [Event(command, AnswerFrom(s.rows.idempotency[command.IdempotencyKey()], command), true)]
  {
    var moves := RetryMoves(id, command);
    var begun := Step(s, id, moves[0].action);
    var admitted := Step(begun, id, moves[1].action);
    var locked := Step(admitted, id, moves[2].action);
    var found := Step(locked, id, moves[3].action);
    states := [s, begun, admitted, locked, found, Step(found, id, moves[4].action)];
  }
}
