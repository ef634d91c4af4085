/** Concurrent `createOwnCase` transactions, interleaved statement by statement around the row lock
    of `FOR UPDATE` and the unique idempotency key. Every interleaving is equivalent to a serial
    run of the command, in commit order. */
module CreateOwnCaseRuns {
  import opened Common
  import opened CreateOwnCase

  type TxId = nat

  /** How far a transaction is, with what it has read or written and not yet committed. */
  datatype Phase =
    | Begun                 // nothing read yet
    | Answering(row: Row)   // SELECT ... FOR UPDATE returned a committed row and locked it
    | Absent                // it returned none
    | Reserved              // the in_progress row is inserted: this transaction holds the unique key
    | Planned(plan: Plan)   // the rows of the plan are inserted
    | Finished(plan: Plan)  // the row is updated to completed

  datatype Tx = Tx(request: Request, ids: Identity, phase: Phase)

  /** What transactions do, in the order in which they end. The answer to COMMIT may be lost: then the
      caller is told of a failure, whatever the outcome. */
  datatype Event = Event(request: Request, ids: Identity, outcome: Outcome, answered: bool)

  function Told(e: Event): Outcome {
    if e.answered then e.outcome else Failed
  }

  datatype State = State(committed: Tables, live: map<TxId, Tx>, locks: map<Key, TxId>, log: seq<Event>)

  datatype Action = Begin(request: Request, ids: Identity) | Deny | Select | Answer(answered: bool) | Reserve | InsertPlanRows | Complete
                  | Commit(answered: bool) | Abort

  predicate HoldsKey(tx: Tx, key: Key) {
    (tx.phase.Reserved? || tx.phase.Planned? || tx.phase.Finished?) && KeyOf(tx.request) == key
  }

  predicate HasRows(tx: Tx) {
    tx.phase.Planned? || tx.phase.Finished?
  }

  predicate Overlap(a: Identity, b: Identity) {
    a.caseId == b.caseId || a.responsibilityId == b.responsibilityId || a.actionId == b.actionId
  }

  function End(s: State, id: TxId, committed: Tables, outcome: Outcome, answered: bool): State
    requires id in s.live
  {
    State(committed, s.live - {id}, map key | key in s.locks && s.locks[key] != id :: s.locks[key],
          s.log + [Event(s.live[id].request, s.live[id].ids, outcome, answered)])
  }

  function To(s: State, id: TxId, phase: Phase): State
    requires id in s.live
  {
    s.(live := s.live[id := s.live[id].(phase := phase)])
  }

  /** Whether transaction `id` can take this step now. Waiting (for a row lock, for the holder of
      the unique key or of a primary key) is a step that is not enabled; a violation of a key
      leaves only `Abort`. */
  ghost predicate Enabled(s: State, id: TxId, action: Action) {
    if action.Begin? then id !in s.live
    else
      && id in s.live
      && var tx := s.live[id]; var key := KeyOf(tx.request);
      match action
      case Begin(_, _) => true
      case Deny => tx.phase == Begun && tx.request.membership.None?
      case Select => tx.phase == Begun && tx.request.membership.Some? && key !in s.locks
      case Answer(_) => tx.phase.Answering?
      case Reserve => tx.phase == Absent && key !in s.committed.idempotency && forall other :: other in s.live ==> !HoldsKey(s.live[other], key)
      case InsertPlanRows =>
        && tx.phase == Reserved && tx.request.membership.Some? && PlanCreateOwnCase(tx.request, tx.ids).Ok? && Fits(s.committed, tx.ids)
        && forall other :: other in s.live && HasRows(s.live[other]) ==> !Overlap(s.live[other].ids, tx.ids)
      case Complete => tx.phase.Planned?
      case Commit(_) => tx.phase.Finished?
      case Abort => true
  }

  /** Statements read committed data only; an error anywhere rolls the transaction back. */
  ghost function Step(s: State, id: TxId, action: Action): State
    requires Enabled(s, id, action)
  {
    match action
    case Begin(request, ids) => s.(live := s.live[id := Tx(request, ids, Begun)])
    case Deny => End(s, id, s.committed, Denied, true)
    case Select =>
      var key := KeyOf(s.live[id].request);
      if key in s.committed.idempotency then To(s, id, Answering(s.committed.idempotency[key])).(locks := s.locks[key := id])
      else To(s, id, Absent)
    case Answer(answered) => End(s, id, s.committed, AnswerFrom(s.live[id].phase.row, s.live[id].request), answered)
    case Reserve => To(s, id, Reserved)
    case InsertPlanRows => To(s, id, Planned(PlanCreateOwnCase(s.live[id].request, s.live[id].ids).value))
    case Complete => To(s, id, Finished(s.live[id].phase.plan))
    case Commit(answered) =>
      var tx := s.live[id];
      var committed := WithPlan(s.committed, tx.phase.plan).(idempotency :=
        s.committed.idempotency[KeyOf(tx.request) := CompletedRow(tx.request, tx.phase.plan)]);
      End(s, id, committed, Created(StoredOf(tx.phase.plan), false), answered)
    case Abort => End(s, id, s.committed, Failed, true)
  }

  // ---- Serial runs ----

  /** `Failed` covers every rollback, also those that have no counterpart without interference. */
  ghost predicate Explains(before: Tables, e: Event, after: Tables) {
    if e.outcome == Failed then after == before else (after, e.outcome) == Atomic(before, e.request, e.ids)
  }

  ghost function Replay(before: Tables, log: seq<Event>): Tables {
    if log == [] then before
    else
      var mid, e := Replay(before, log[..|log| - 1]), log[|log| - 1];
      if e.outcome == Failed then mid else Atomic(mid, e.request, e.ids).0
  }

  /** Running the logged requests one after the other gives the logged outcomes and ends in `after`. */
  ghost predicate Serial(before: Tables, log: seq<Event>, after: Tables) {
    if log == [] then before == after
    else
      var mid := Replay(before, log[..|log| - 1]);
      Serial(before, log[..|log| - 1], mid) && Explains(mid, log[|log| - 1], after)
  }

  lemma {:induction false} SerialSnoc(before: Tables, log: seq<Event>, mid: Tables, e: Event, after: Tables)
    requires Serial(before, log, mid) && Explains(mid, e, after)
    ensures Serial(before, log + [e], after)
  {
    assert (log + [e])[..|log|] == log;
    hide Atomic;
    if log != [] {
      assert Explains(Replay(before, log[..|log| - 1]), log[|log| - 1], mid);
    }
    assert mid == Replay(before, log);
  }

  // ---- The invariant of interleaved runs ----

  ghost predicate TxInv(s: State, id: TxId)
    requires id in s.live
  {
    var tx := s.live[id];
    var key := KeyOf(tx.request);
    && (tx.phase != Begun ==> tx.request.membership.Some?)
    && (tx.phase.Answering? ==> key in s.committed.idempotency && s.committed.idempotency[key] == tx.phase.row)
    && (tx.phase.Answering? ==> key in s.locks && s.locks[key] == id)
    && (HoldsKey(tx, key) ==> key !in s.committed.idempotency)
    && (HasRows(tx) ==> PlanCreateOwnCase(tx.request, tx.ids) == Ok(tx.phase.plan) && Fits(s.committed, tx.ids))
  }

  ghost predicate Exclusive(s: State, a: TxId, b: TxId)
    requires a in s.live && b in s.live
  {
    && (HoldsKey(s.live[a], KeyOf(s.live[a].request)) ==> !HoldsKey(s.live[b], KeyOf(s.live[a].request)))
    && (HasRows(s.live[a]) && HasRows(s.live[b]) ==> !Overlap(s.live[a].ids, s.live[b].ids))
  }

  /** A row lock is held by the live transaction that answers from the row, and by no other. */
  ghost predicate LockInv(s: State, key: Key)
    requires key in s.locks
  {
    s.locks[key] in s.live && s.live[s.locks[key]].phase.Answering? && KeyOf(s.live[s.locks[key]].request) == key
  }

  ghost predicate Inv(initial: Tables, s: State) {
    && (forall id :: id in s.live ==> TxInv(s, id))
    && (forall key :: key in s.locks ==> LockInv(s, key))
    && (forall a, b :: a in s.live && b in s.live && a != b ==> Exclusive(s, a, b))
    && Serial(initial, s.log, s.committed)
  }

  lemma CommitIsAtomic(s: State, id: TxId)
    requires id in s.live && TxInv(s, id) && s.live[id].phase.Finished?
    ensures var tx := s.live[id];
            Atomic(s.committed, tx.request, tx.ids) ==
            (WithPlan(s.committed, tx.phase.plan).(idempotency :=
               s.committed.idempotency[KeyOf(tx.request) := CompletedRow(tx.request, tx.phase.plan)]),
             Created(StoredOf(tx.phase.plan), false))
  {
  }

  /** Ending without a write keeps everything, and the event explains itself. */
  lemma EndUnchanged(initial: Tables, s: State, id: TxId, outcome: Outcome, answered: bool)
    requires Inv(initial, s) && id in s.live
    requires Explains(s.committed, Event(s.live[id].request, s.live[id].ids, outcome, answered), s.committed)
    ensures Inv(initial, End(s, id, s.committed, outcome, answered))
  {
    hide Atomic, PlanCreateOwnCase;
    var next := End(s, id, s.committed, outcome, answered);
    SerialSnoc(initial, s.log, s.committed, Event(s.live[id].request, s.live[id].ids, outcome, answered), s.committed);
    forall other | other in next.live
      ensures TxInv(next, other)
    {
      assert TxInv(s, other);
    }
    forall key | key in next.locks
      ensures LockInv(next, key)
    {
      assert key in s.locks ==> LockInv(s, key);
    }
    forall a, b | a in next.live && b in next.live && a != b
      ensures Exclusive(next, a, b)
    {
      assert Exclusive(s, a, b);
    }
  }

  lemma KeepsRows(t: Tables, plan: Plan)
    ensures WithPlan(t, plan).idempotency == t.idempotency
  {
  }

  lemma FitsBeside(t: Tables, plan: Plan, row: Row, key: Key, ids: Identity)
    requires Fits(t, ids) && !Overlap(Identity(plan.followUp.id, plan.responsibility.id, plan.action.id), ids)
    ensures Fits(WithPlan(t, plan).(idempotency := t.idempotency[key := row]), ids)
  {
  }

  lemma CommitKeepsTx(s: State, id: TxId, answered: bool, other: TxId)
    requires id in s.live && s.live[id].phase.Finished? && other in s.live && other != id
    requires TxInv(s, id) && TxInv(s, other) && Exclusive(s, id, other)
    ensures other in Step(s, id, Commit(answered)).live && TxInv(Step(s, id, Commit(answered)), other)
  {
    var tx := s.live[id];
    KeepsRows(s.committed, tx.phase.plan);
    PlanIds(tx.request, tx.ids);
    hide Atomic, PlanCreateOwnCase, CompletedRow, StoredOf, WithPlan, Fits, RequestFingerprint;
    if HasRows(s.live[other]) {
      FitsBeside(s.committed, tx.phase.plan, CompletedRow(tx.request, tx.phase.plan), KeyOf(tx.request), s.live[other].ids);
    }
  }

  lemma CommitKeepsInv(initial: Tables, s: State, id: TxId, answered: bool)
    requires Inv(initial, s) && id in s.live && s.live[id].phase.Finished?
    ensures Inv(initial, Step(s, id, Commit(answered)))
  {
    var tx := s.live[id];
    var next := Step(s, id, Commit(answered));
    assert TxInv(s, id);
    CommitIsAtomic(s, id);
    hide Atomic, PlanCreateOwnCase, CompletedRow, StoredOf, WithPlan, TxInv;
    SerialSnoc(initial, s.log, s.committed, Event(tx.request, tx.ids, Created(StoredOf(tx.phase.plan), false), answered), next.committed);
    hide Serial;
    forall other | other in next.live
      ensures TxInv(next, other)
    {
      assert TxInv(s, other) && Exclusive(s, id, other);
      CommitKeepsTx(s, id, answered, other);
    }
    forall key | key in next.locks
      ensures LockInv(next, key)
    {
      assert LockInv(s, key);
    }
    forall a, b | a in next.live && b in next.live && a != b
      ensures Exclusive(next, a, b)
    {
      assert Exclusive(s, a, b);
    }
  }

  lemma MoveKeepsTx(initial: Tables, s: State, id: TxId, action: Action, other: TxId)
    requires Inv(initial, s) && Enabled(s, id, action)
    requires action in {Select, Reserve, InsertPlanRows, Complete} || action.Begin?
    requires other in Step(s, id, action).live
    ensures TxInv(Step(s, id, action), other)
  {
    hide Atomic, PlanCreateOwnCase, WithPlan, CompletedRow, StoredOf, Serial, Exclusive, LockInv;
    if !action.Begin? {
      assert TxInv(s, id);
    }
    assert other != id ==> TxInv(s, other);
  }

  lemma MoveKeepsLocks(initial: Tables, s: State, id: TxId, action: Action, key: Key)
    requires Inv(initial, s) && Enabled(s, id, action)
    requires action in {Select, Reserve, InsertPlanRows, Complete} || action.Begin?
    requires key in Step(s, id, action).locks
    ensures LockInv(Step(s, id, action), key)
  {
    hide Atomic, PlanCreateOwnCase, WithPlan, CompletedRow, StoredOf, Serial, Exclusive, Fits, TxInv;
    assert key in s.locks ==> LockInv(s, key);
  }

  /** Moving one transaction to a new phase, without committing. */
  lemma MoveKeepsInv(initial: Tables, s: State, id: TxId, action: Action)
    requires Inv(initial, s) && Enabled(s, id, action)
    requires action in {Select, Reserve, InsertPlanRows, Complete} || action.Begin?
    ensures Inv(initial, Step(s, id, action))
  {
    var next := Step(s, id, action);
    assert next.log == s.log && next.committed == s.committed;
    hide Enabled, Step, TxInv, LockInv, Exclusive, Serial;
    forall other | other in next.live
      ensures TxInv(next, other)
    {
      MoveKeepsTx(initial, s, id, action, other);
    }
    forall key | key in next.locks
      ensures LockInv(next, key)
    {
      MoveKeepsLocks(initial, s, id, action, key);
    }
    forall a, b | a in next.live && b in next.live && a != b
      ensures Exclusive(next, a, b)
    {
      MoveKeepsExclusive(initial, s, id, action, a, b);
    }
  }

  lemma MoveKeepsExclusive(initial: Tables, s: State, id: TxId, action: Action, a: TxId, b: TxId)
    requires Inv(initial, s) && Enabled(s, id, action)
    requires action in {Select, Reserve, InsertPlanRows, Complete} || action.Begin?
    requires a in Step(s, id, action).live && b in Step(s, id, action).live && a != b
    ensures Exclusive(Step(s, id, action), a, b)
  {
    hide Atomic, PlanCreateOwnCase, WithPlan, CompletedRow, StoredOf, TxInv, LockInv, Serial, Fits;
    assert a != id && b != id ==> Exclusive(s, a, b);
    assert !action.Begin? ==> Exclusive(s, a, b) && Exclusive(s, b, a);
  }

  lemma StepKeepsInv(initial: Tables, s: State, id: TxId, action: Action)
    requires Inv(initial, s) && Enabled(s, id, action)
    ensures Inv(initial, Step(s, id, action))
  {
    match action
    case Begin(_, _) => MoveKeepsInv(initial, s, id, action);
    case Select => MoveKeepsInv(initial, s, id, action);
    case Reserve => MoveKeepsInv(initial, s, id, action);
    case InsertPlanRows => MoveKeepsInv(initial, s, id, action);
    case Complete => MoveKeepsInv(initial, s, id, action);
    case Deny => EndUnchanged(initial, s, id, Denied, true);
    case Answer(answered) =>
      assert TxInv(s, id);
      EndUnchanged(initial, s, id, AnswerFrom(s.live[id].phase.row, s.live[id].request), answered);
    case Commit(answered) => CommitKeepsInv(initial, s, id, answered);
    case Abort => EndUnchanged(initial, s, id, Failed, true);
  }

  // ---- Runs ----

  datatype Move = Move(id: TxId, action: Action)

  ghost predicate IsRun(states: seq<State>, moves: seq<Move>) {
    && |states| == |moves| + 1
    && forall i :: 0 <= i < |moves| ==>
         Enabled(states[i], moves[i].id, moves[i].action) && states[i + 1] == Step(states[i], moves[i].id, moves[i].action)
  }

  /** Every interleaving is serializable: its log, in commit order, is a serial run of the command
      from the initial tables to the committed ones. */
  lemma {:induction false} InterleavingsAreSerial(initial: Tables, states: seq<State>, moves: seq<Move>, k: nat)
    requires IsRun(states, moves) && states[0] == State(initial, map[], map[], []) && k < |states|
    ensures Inv(initial, states[k])
  {
    if k > 0 {
      InterleavingsAreSerial(initial, states, moves, k - 1);
      StepKeepsInv(initial, states[k - 1], moves[k - 1].id, moves[k - 1].action);
    }
  }

  // ---- What serial runs, and so all interleavings, keep ----

  /** The case, its accepted primary responsibility, its pending primary action and the current
      work refer to one another and carry the answer. */
  ghost predicate Linked(t: Tables, organizationId: Id, s: Stored) {
    && s.caseId in t.cases && s.responsibilityId in t.responsibilities && s.actionId in t.actions && s.caseId in t.currentWork
    && var value, responsibility, action := t.cases[s.caseId], t.responsibilities[s.responsibilityId], t.actions[s.actionId];
    && value.id == s.caseId && value.organizationId == organizationId && value.status == Open
    && value.title == s.title && value.priority == s.priority && TimeJson(value.dueAt) == s.dueAt
    && responsibility.id == s.responsibilityId && responsibility.caseId == s.caseId && responsibility.organizationId == organizationId
    && responsibility.status == Accepted && responsibility.role == Primary
    && responsibility.target == MembershipTarget(value.createdBy) && responsibility.acceptedBy == Some(value.createdBy)
    && action.id == s.actionId && action.caseId == s.caseId && action.organizationId == organizationId
    && action.status == Pending && action.kind == Primary && action.source == Some(s.responsibilityId)
    && action.responsible == MembershipTarget(value.createdBy) && action.title == s.actionTitle && TimeJson(action.dueAt) == s.actionDueAt
    && t.currentWork[s.caseId] == s.actionId
  }

  /** A completed row whose snapshot reads back as an answer that the tables carry. */
  ghost predicate GoodRow(t: Tables, key: Key, row: Row) {
    && row.progress.Completed?
    && ReadStoredResult(row.progress.snapshot).Some?
    && var stored := ReadStoredResult(row.progress.snapshot).value;
       row.progress.resource == stored.caseId && Linked(t, key.organizationId, stored)
  }

  /** Rows and cases correspond one to one, and no row is left in progress. */
  ghost predicate Good(t: Tables) {
    && (forall key :: key in t.idempotency ==> GoodRow(t, key, t.idempotency[key]))
    && (forall k, l :: k in t.idempotency && l in t.idempotency && k != l ==>
          t.idempotency[k].progress.resource != t.idempotency[l].progress.resource)
    && (forall c :: c in t.cases ==> exists key :: key in t.idempotency && t.idempotency[key].progress.resource == c)
  }

  lemma PlanIsLinked(t: Tables, r: Request, ids: Identity)
    requires r.membership.Some? && PlanCreateOwnCase(r, ids).Ok?
    ensures Linked(WithPlan(t, PlanCreateOwnCase(r, ids).value), r.organizationId, StoredOf(PlanCreateOwnCase(r, ids).value))
    ensures KnownPriority(StoredOf(PlanCreateOwnCase(r, ids).value).priority)
  {
  }

  lemma LinkedStays(t: Tables, plan: Plan, organizationId: Id, s: Stored)
    requires Linked(t, organizationId, s)
    requires Fits(t, Identity(plan.followUp.id, plan.responsibility.id, plan.action.id))
    ensures Linked(WithPlan(t, plan), organizationId, s)
  {
  }

  lemma LinkedIgnoresRows(t: Tables, rows: map<Key, Row>, organizationId: Id, s: Stored)
    ensures Linked(t.(idempotency := rows), organizationId, s) <==> Linked(t, organizationId, s)
  {
  }

  lemma FreshRowIsGood(t: Tables, r: Request, ids: Identity)
    requires r.membership.Some? && PlanCreateOwnCase(r, ids).Ok?
    ensures var plan := PlanCreateOwnCase(r, ids).value;
            GoodRow(WithPlan(t, plan), KeyOf(r), CompletedRow(r, plan)) && CompletedRow(r, plan).progress.resource == ids.caseId
  {
    PlanIsLinked(t, r, ids);
    SnapshotRoundTrip(StoredOf(PlanCreateOwnCase(r, ids).value));
  }

  lemma GoodRowStays(t: Tables, plan: Plan, rows: map<Key, Row>, key: Key, row: Row)
    requires Fits(t, Identity(plan.followUp.id, plan.responsibility.id, plan.action.id)) && GoodRow(t, key, row)
    ensures GoodRow(WithPlan(t, plan).(idempotency := rows), key, row)
  {
    hide Linked, WithPlan, ReadStoredResult;
    var stored := ReadStoredResult(row.progress.snapshot).value;
    LinkedStays(t, plan, key.organizationId, stored);
    LinkedIgnoresRows(WithPlan(t, plan), rows, key.organizationId, stored);
  }

  lemma FreshRowStays(t: Tables, plan: Plan, rows: map<Key, Row>, key: Key, row: Row)
    requires GoodRow(WithPlan(t, plan), key, row)
    ensures GoodRow(WithPlan(t, plan).(idempotency := rows), key, row)
  {
    hide Linked, WithPlan, ReadStoredResult;
    LinkedIgnoresRows(WithPlan(t, plan), rows, key.organizationId, ReadStoredResult(row.progress.snapshot).value);
  }

  lemma WritingKeepsGood(t: Tables, r: Request, ids: Identity)
    requires Good(t) && r.membership.Some? && KeyOf(r) !in t.idempotency
    requires PlanCreateOwnCase(r, ids).Ok? && Fits(t, ids)
    ensures var plan := PlanCreateOwnCase(r, ids).value;
            Good(WithPlan(t, plan).(idempotency := t.idempotency[KeyOf(r) := CompletedRow(r, plan)]))
  {
    FreshRowIsGood(t, r, ids);
    PlanIds(r, ids);
    var plan := PlanCreateOwnCase(r, ids).value;
    AddingKeepsGood(t, plan, KeyOf(r), CompletedRow(r, plan));
  }

  lemma AddingKeepsGood(t: Tables, plan: Plan, added: Key, row: Row)
    requires Good(t) && added !in t.idempotency && Fits(t, Identity(plan.followUp.id, plan.responsibility.id, plan.action.id))
    requires GoodRow(WithPlan(t, plan), added, row) && row.progress.resource == plan.followUp.id
    ensures Good(WithPlan(t, plan).(idempotency := t.idempotency[added := row]))
  {
    hide GoodRow;
    var rows := t.idempotency[added := row];
    var after := WithPlan(t, plan).(idempotency := rows);
    forall key | key in rows
      ensures GoodRow(after, key, rows[key])
    {
      if key == added {
        FreshRowStays(t, plan, rows, key, row);
      } else {
        GoodRowStays(t, plan, rows, key, rows[key]);
      }
    }
    forall k | k in t.idempotency
      ensures t.idempotency[k].progress.Completed? && t.idempotency[k].progress.resource != plan.followUp.id
    {
      ResourceExists(t, k);
    }
    RowCompleted(WithPlan(t, plan), added, row);
    forall c | c in after.cases
      ensures exists key :: key in rows && rows[key].progress.resource == c
    {
      if c == plan.followUp.id {
        assert rows[added].progress.resource == c;
      } else {
        var key :| key in t.idempotency && t.idempotency[key].progress.resource == c;
        assert key != added && rows[key].progress.resource == c;
      }
    }
  }

  lemma RowCompleted(t: Tables, key: Key, row: Row)
    requires GoodRow(t, key, row)
    ensures row.progress.Completed?
  {
  }

  lemma ResourceExists(t: Tables, key: Key)
    requires key in t.idempotency && GoodRow(t, key, t.idempotency[key])
    ensures t.idempotency[key].progress.Completed? && t.idempotency[key].progress.resource in t.cases
  {
  }

  lemma AtomicKeepsGood(t: Tables, r: Request, ids: Identity)
    requires Good(t)
    ensures Good(Atomic(t, r, ids).0)
    ensures forall key :: key in Atomic(t, r, ids).0.idempotency && key !in t.idempotency ==>
              key == KeyOf(r) && Atomic(t, r, ids).1.Created? && !Atomic(t, r, ids).1.replayed
    ensures Atomic(t, r, ids).1 != InProgressElsewhere
    ensures forall key :: key in t.idempotency ==>
              key in Atomic(t, r, ids).0.idempotency && Atomic(t, r, ids).0.idempotency[key] == t.idempotency[key]
  {
    hide Good, CompletedRow, GoodRow;
    if r.membership.Some? {
      if KeyOf(r) in t.idempotency {
        RowsAreGood(t, KeyOf(r));
      } else if PlanCreateOwnCase(r, ids).Ok? && Fits(t, ids) {
        WritingKeepsGood(t, r, ids);
      }
    }
  }

  lemma RowsAreGood(t: Tables, key: Key)
    requires Good(t) && key in t.idempotency
    ensures GoodRow(t, key, t.idempotency[key]) && t.idempotency[key].progress.Completed?
  {
  }

  predicate SameKey(e: Event, f: Event) {
    KeyOf(e.request) == KeyOf(f.request)
  }

  ghost predicate FreshFor(log: seq<Event>, i: int, key: Key) {
    0 <= i < |log| && log[i].outcome.Created? && !log[i].outcome.replayed && KeyOf(log[i].request) == key
  }

  /** The answer recorded for a key, once it has succeeded. */
  ghost predicate Remembers(t: Tables, r: Request, result: Stored) {
    && KeyOf(r) in t.idempotency
    && var row := t.idempotency[KeyOf(r)];
       row.progress.Completed? && ReadStoredResult(row.progress.snapshot) == Some(result) && row.fingerprint == RequestFingerprint(r)
  }

  lemma CreatedIsRemembered(t: Tables, r: Request, ids: Identity)
    requires Atomic(t, r, ids).1.Created?
    ensures Remembers(Atomic(t, r, ids).0, r, Atomic(t, r, ids).1.result)
    ensures Atomic(t, r, ids).1.replayed <==> KeyOf(r) in t.idempotency
  {
    if KeyOf(r) !in t.idempotency {
      PlanIsLinked(t, r, ids);
      SnapshotRoundTrip(StoredOf(PlanCreateOwnCase(r, ids).value));
    }
  }

  lemma OneEvent(mid: Tables, e: Event, after: Tables)
    requires Explains(mid, e, after) && Good(mid)
    ensures Good(after) && e.outcome != InProgressElsewhere
    ensures forall key :: key in mid.idempotency ==> key in after.idempotency && after.idempotency[key] == mid.idempotency[key]
    ensures e.outcome.Created? ==> Remembers(after, e.request, e.outcome.result) && (e.outcome.replayed <==> KeyOf(e.request) in mid.idempotency)
  {
    hide Atomic, Good, Remembers;
    if e.outcome != Failed {
      AtomicKeepsGood(mid, e.request, e.ids);
      if e.outcome.Created? {
        CreatedIsRemembered(mid, e.request, e.ids);
      }
    }
  }

  lemma StillRemembers(mid: Tables, after: Tables, r: Request, result: Stored)
    requires Remembers(mid, r, result)
    requires forall key :: key in mid.idempotency ==> key in after.idempotency && after.idempotency[key] == mid.idempotency[key]
    ensures Remembers(after, r, result) && KeyOf(r) in mid.idempotency
  {
  }

  /** Over a serial run: tables stay good, no caller is told "in progress", every successful answer
      is the one remembered for its key at the end, and at most one of them is not a replay. */
  lemma {:induction false} SerialRunsAreIdempotent(before: Tables, log: seq<Event>, after: Tables)
    requires Serial(before, log, after) && Good(before)
    ensures Good(after)
    ensures forall key :: key in before.idempotency ==> key in after.idempotency && after.idempotency[key] == before.idempotency[key]
    ensures forall i :: 0 <= i < |log| ==> log[i].outcome != InProgressElsewhere
    ensures forall i :: 0 <= i < |log| && log[i].outcome.Created? ==> Remembers(after, log[i].request, log[i].outcome.result)
    ensures forall i :: 0 <= i < |log| && log[i].outcome.Created? && !log[i].outcome.replayed ==> KeyOf(log[i].request) !in before.idempotency
    ensures forall i, j :: 0 <= i < j < |log| && log[i].outcome.Created? && log[j].outcome.Created? && SameKey(log[i], log[j]) ==>
              log[j].outcome.replayed
  {
    hide Atomic, Good, Remembers, Explains;
    if log != [] {
      var front, e := log[..|log| - 1], log[|log| - 1];
      var mid := Replay(before, front);
      SerialRunsAreIdempotent(before, front, mid);
      OneEvent(mid, e, after);
      hide Serial, Replay;
      assert forall i :: 0 <= i < |front| ==> front[i] == log[i];
      forall i | 0 <= i < |front| && front[i].outcome.Created?
        ensures Remembers(after, front[i].request, front[i].outcome.result) && KeyOf(front[i].request) in mid.idempotency
      {
        StillRemembers(mid, after, front[i].request, front[i].outcome.result);
      }
    }
  }

  /** Every row that a run adds stems from one fresh answer for its key. */
  lemma {:induction false} NewRowsHaveFreshAnswers(before: Tables, log: seq<Event>, after: Tables)
    requires Serial(before, log, after) && Good(before)
    ensures forall key :: key in after.idempotency && key !in before.idempotency ==> exists i :: FreshFor(log, i, key)
  {
    hide Atomic, Good;
    if log != [] {
      var front, e := log[..|log| - 1], log[|log| - 1];
      var mid := Replay(before, front);
      NewRowsHaveFreshAnswers(before, front, mid);
      SerialRunsAreIdempotent(before, front, mid);
      AtomicKeepsGood(mid, e.request, e.ids);
      forall key | key in after.idempotency && key !in before.idempotency
        ensures exists i :: FreshFor(log, i, key)
      {
        if key in mid.idempotency {
          var i :| FreshFor(front, i, key);
          assert front[i] == log[i] && FreshFor(log, i, key);
        } else {
          assert FreshFor(log, |front|, key);
        }
      }
    }
  }

  lemma {:induction false} SerialPrefix(before: Tables, log: seq<Event>, after: Tables, j: nat)
    requires Serial(before, log, after) && j < |log|
    ensures Serial(before, log[..j], Replay(before, log[..j]))
    ensures Explains(Replay(before, log[..j]), log[j], Replay(before, log[..j + 1]))
    decreases |log|
  {
    hide Atomic;
    var front := log[..|log| - 1];
    if j < |front| {
      SerialPrefix(before, front, Replay(before, front), j);
      assert front[..j] == log[..j] && front[..j + 1] == log[..j + 1];
    } else {
      assert log[..j + 1] == log;
    }
  }

  /** What idempotency keys are for: once a transaction for a key has committed, even if its caller was
      told of a failure, the same request for the key is answered with its result whenever it gets
      through to an answer. */
  lemma RetryGetsTheResult(initial: Tables, states: seq<State>, moves: seq<Move>, k: nat, i: nat, j: nat)
    requires IsRun(states, moves) && states[0] == State(initial, map[], map[], []) && k < |states| && Good(initial)
    requires i < j < |states[k].log| && states[k].log[i].outcome.Created? && SameKey(states[k].log[i], states[k].log[j])
    requires RequestFingerprint(states[k].log[j].request) == RequestFingerprint(states[k].log[i].request)
    requires Told(states[k].log[j]) != Failed && Told(states[k].log[j]) != Denied
    ensures Told(states[k].log[j]) == Created(states[k].log[i].outcome.result, true)
  {
    var log := states[k].log;
    InterleavingsAreSerial(initial, states, moves, k);
    SerialPrefix(initial, log, states[k].committed, j);
    var mid := Replay(initial, log[..j]);
    SerialRunsAreIdempotent(initial, log[..j], mid);
    assert log[..j][i] == log[i];
    RememberedAnswer(mid, log[i].request, log[i].outcome.result, log[j].request, log[j].ids);
    hide Atomic, IsRun, Inv;
  }

  lemma RememberedAnswer(t: Tables, r: Request, result: Stored, again: Request, ids: Identity)
    requires Remembers(t, r, result) && KeyOf(again) == KeyOf(r) && RequestFingerprint(again) == RequestFingerprint(r)
    ensures Atomic(t, again, ids).1 in {Denied, Created(result, true)}
  {
    hide RequestFingerprint, ReadStoredResult;
  }

  /** The result for concurrent callers. From good tables, after any number of steps of any
      transactions: the committed tables are good (one case per key, nothing in progress, linked
      rows), every new row stems from a fresh answer, nobody was told "in progress", and all
      successful answers for one key are equal, the first of them alone being fresh. */
  lemma ConcurrentCallersShareOneCase(initial: Tables, states: seq<State>, moves: seq<Move>, k: nat)
    requires IsRun(states, moves) && states[0] == State(initial, map[], map[], []) && k < |states| && Good(initial)
    ensures Good(states[k].committed)
    ensures forall key :: key in states[k].committed.idempotency && key !in initial.idempotency ==>
              exists i :: FreshFor(states[k].log, i, key)
    ensures forall i :: 0 <= i < |states[k].log| ==> states[k].log[i].outcome != InProgressElsewhere
    ensures var log := states[k].log;
            forall i, j :: 0 <= i < j < |log| && log[i].outcome.Created? && log[j].outcome.Created? && SameKey(log[i], log[j]) ==>
              log[j].outcome == Created(log[i].outcome.result, true)
  {
    InterleavingsAreSerial(initial, states, moves, k);
    var log, committed := states[k].log, states[k].committed;
    SerialRunsAreIdempotent(initial, log, committed);
    NewRowsHaveFreshAnswers(initial, log, committed);
    forall i, j | 0 <= i < j < |log| && log[i].outcome.Created? && log[j].outcome.Created? && SameKey(log[i], log[j])
      ensures log[j].outcome == Created(log[i].outcome.result, true)
    {
      assert Remembers(committed, log[i].request, log[i].outcome.result);
      assert Remembers(committed, log[j].request, log[j].outcome.result);
    }
  }
}
