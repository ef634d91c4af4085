/** Why a session ends, and what each request answers and stores, told from what it read, the clock
    and the row that it finds at its end. */
module SessionReasons {
  import opened Common
  import opened Sessions
  import opened SessionRuns

  function Least(a: int, b: int): int { if a <= b then a else b }

  function Most(a: int, b: int): int { if a <= b then b else a }

  // ---- One request ----

  /** The clock was read at or after one of the expiries of the session as read. */
  predicate TimedOut(record: Record, now: int) {
    record.session.idleExpiresAt <= now || record.session.absoluteExpiresAt <= now
  }

  /** The request presents the token of the session that it read. */
  predicate Presents(record: Record, token: string) {
    token != "" && token == record.session.csrfToken
  }

  /** What a request is told when `row` is what its session has become. */
  function Told(record: Record, intent: Intent, now: int, row: Session): Answer {
    if record.session.status == Revoked then Failed(SessionRevoked)
    else if record.session.status == Expired || TimedOut(record, now) then Failed(SessionExpired)
    else if record.userStatus != UserActive then Failed(SessionRevoked)
    else match intent
      case GetSession =>
        if row.status == Active then
          View(id := record.id, idleExpiresAt := Least(now + 8 * 60 * 60 * 1000, record.session.absoluteExpiresAt),
               absoluteExpiresAt := record.session.absoluteExpiresAt)
        else Failed(SessionRevoked)
      case Logout(token) =>
        if !Presents(record, token) then Failed(CsrfInvalid) else if row == record.session then LoggedOut else Failed(SessionRevoked)
      case LogoutAll(token) => if !Presents(record, token) then Failed(CsrfInvalid) else LoggedOutAll
  }

  function EndedAt(row: Session, status: Status, time: int): Session {
    row.(status := status, revokedAt := Some(time), updatedAt := time, revision := row.revision + 1, version := row.version + 1)
  }

  /** The request finds the session timed out, and its row as it was read. */
  predicate Expires(record: Record, now: int, id: Id, row: Session) {
    record.session.status == Active && TimedOut(record, now) && id == record.id && row == record.session
  }

  /** The request finds the session in time but its user inactive: all sessions of the user go. */
  predicate FindsInactive(record: Record, now: int, row: Session) {
    record.session.status == Active && !TimedOut(record, now) && record.userStatus != UserActive
    && row.userId == record.session.userId
  }

  /** The session is good, as read. */
  predicate Good(record: Record, now: int) {
    record.session.status == Active && !TimedOut(record, now) && record.userStatus == UserActive
  }

  predicate LogsOut(record: Record, intent: Intent, now: int, id: Id, row: Session) {
    Good(record, now) && intent.Logout? && Presents(record, intent.csrfToken) && id == record.id && row == record.session
  }

  predicate LogsOutAll(record: Record, intent: Intent, now: int, row: Session) {
    Good(record, now) && intent.LogoutAll? && Presents(record, intent.csrfToken) && row.userId == record.session.userId
  }

  predicate Uses(record: Record, intent: Intent, now: int, id: Id) {
    Good(record, now) && intent.GetSession? && id == record.id
  }

  /** What a request leaves of a row that it finds. */
  function Left(record: Record, intent: Intent, now: int, later: int, id: Id, row: Session): Session {
    if row.status != Active then row
    else if Expires(record, now, id, row) then EndedAt(row, Expired, now)
    else if FindsInactive(record, now, row) then EndedAt(row, Revoked, now)
    else if LogsOut(record, intent, now, id, row) || LogsOutAll(record, intent, now, row) then EndedAt(row, Revoked, later)
    else if Uses(record, intent, now, id) then
      row.(lastSeenAt := Most(row.lastSeenAt, now),
           idleExpiresAt := Least(row.absoluteExpiresAt, Most(row.idleExpiresAt, Least(now + 8 * 60 * 60 * 1000, record.session.absoluteExpiresAt))),
           updatedAt := Most(row.updatedAt, now), version := row.version + 1)
    else row
  }

  /** A record that is no newer than the row: while the version is the same, so is the row. */
  ghost predicate ReadBefore(record: Record, rows: Rows) {
    record.id in rows && Becomes(record.session, rows[record.id])
  }

  lemma PlanLeaves(rows: Rows, record: Record, intent: Intent, now: int, later: int, id: Id)
    requires ReadBefore(record, rows) && id in rows
    ensures var plan := Decide(record, intent, now, later);
            (if plan.Execute? then After(plan.statement, id, rows[id]) else rows[id]) == Left(record, intent, now, later, id, rows[id])
  {
  }

  lemma AffectedIs(rows: Rows, statement: Statement)
    ensures Affected(rows, statement) != {} <==> exists id :: id in rows && Hits(statement, id, rows[id])
  {
    if id :| id in rows && Hits(statement, id, rows[id]) {
      assert id in Affected(rows, statement);
    }
  }

  lemma PlanTells(rows: Rows, record: Record, intent: Intent, now: int, later: int)
    requires ReadBefore(record, rows)
    ensures var plan := Decide(record, intent, now, later);
            (match plan case Now(answer) => answer
                        case Execute(statement, hit, missed) => if Affected(rows, statement) != {} then hit else missed)
            == Told(record, intent, now, rows[record.id])
  {
    var plan := Decide(record, intent, now, later);
    if plan.Execute? {
      AffectedIs(rows, plan.statement);
      assert Hits(plan.statement, record.id, rows[record.id]) ==> Affected(rows, plan.statement) != {};
    }
  }

  /** A request that nothing interrupts. */
  lemma UninterruptedIs(before: Rows, after: Rows, record: Record, intent: Intent, now: int, later: int, answer: Answer)
    requires record.id in before && record.session == before[record.id] && Served(before, after, record, intent, now, later, answer)
    ensures answer == Told(record, intent, now, before[record.id])
    ensures after.Keys == before.Keys && forall id :: id in before ==> after[id] == Left(record, intent, now, later, id, before[id])
  {
    PlanTells(before, record, intent, now, later);
    forall id | id in before
      ensures id in after && after[id] == Left(record, intent, now, later, id, before[id])
    {
      PlanLeaves(before, record, intent, now, later, id);
    }
    hide Decide, Told, Left, Affected;
  }

  // ---- Every run ----

  /** Every request of every interleaving is answered, and changes each row, exactly so. */
  lemma FinishedIs(states: seq<State>, moves: seq<Move>, k: nat)
    requires IsRun(states, moves) && k < |moves| && moves[k].Finish?
    ensures var q, rows := states[k].requests[moves[k].p], states[k].rows;
            && q.record.id in rows
            && Answered(states[k], moves[k]) == Told(q.record, q.intent, q.now, rows[q.record.id])
            && states[k + 1].rows.Keys == rows.Keys
            && forall id :: id in rows ==> states[k + 1].rows[id] == Left(q.record, q.intent, q.now, q.later, id, rows[id])
  {
    RunKeepsInv(states, moves, k);
    var q, rows := states[k].requests[moves[k].p], states[k].rows;
    assert RequestInv(rows, q);
    PlanTells(rows, q.record, q.intent, q.now, q.later);
    forall id | id in rows
      ensures id in states[k + 1].rows && states[k + 1].rows[id] == Left(q.record, q.intent, q.now, q.later, id, rows[id])
    {
      PlanLeaves(rows, q.record, q.intent, q.now, q.later, id);
    }
    hide Decide, Told, Left, Inv, Becomes;
  }

  /** What the other moves do to the rows: a login adds one, a switch changes the named session of the
      named member, a new password ends the sessions of its user, and nothing else changes any. */
  lemma OtherMovesAre(s: State, move: Move)
    requires Possible(s, move) && !move.Finish?
    ensures var rows, after := s.rows, Next(s, move).rows;
            match move
            case Login(id, userId, secretHash, csrfToken, now) =>
              after == rows[id := Session(userId := userId, secretHash := secretHash, csrfToken := csrfToken, status := Active, revision := 1,
                                          organization := None, createdAt := now, lastSeenAt := now, idleExpiresAt := now + 8 * 60 * 60 * 1000,
                                          absoluteExpiresAt := now + 7 * 24 * 60 * 60 * 1000, revokedAt := None, updatedAt := now, version := 1)]
            case SwitchOrganization(id, userId, organization, csrfToken, now, member) =>
              if member && id in rows && rows[id].status == Active && rows[id].userId == userId then
                after == rows[id := rows[id].(organization := Some(organization), csrfToken := csrfToken, revision := rows[id].revision + 1,
                                              updatedAt := now, version := rows[id].version + 1)]
              else after == rows
            case ReplacePassword(userId, now) =>
              after == map id | id in rows :: if rows[id].status == Active && rows[id].userId == userId then EndedAt(rows[id], Revoked, now) else rows[id]
            case _ => after == rows
  {
  }

  /** The request of move `k` ends this session, for one of the four reasons that a request can have. */
  ghost predicate EndedByRequest(states: seq<State>, moves: seq<Move>, k: nat, id: Id)
    requires IsRun(states, moves) && k < |moves| && id in states[k].rows && id in states[k + 1].rows
  {
    && moves[k].Finish?
    && var q, row, after := states[k].requests[moves[k].p], states[k].rows[id], states[k + 1].rows[id];
       || (after == EndedAt(row, Expired, q.now) && Expires(q.record, q.now, id, row))
       || (after == EndedAt(row, Revoked, q.now) && FindsInactive(q.record, q.now, row))
       || (after == EndedAt(row, Revoked, q.later) && LogsOut(q.record, q.intent, q.now, id, row))
       || (after == EndedAt(row, Revoked, q.later) && LogsOutAll(q.record, q.intent, q.now, row))
  }

  /** Over every run, a session ends only for its own reason: a request that read this session at or after
      one of its expiries, a logout of this session with its token, a `logoutAll` of its user, a request
      that found its user inactive, or a new password of its user. */
  lemma SessionsEndForAReason(states: seq<State>, moves: seq<Move>, k: nat, id: Id)
    requires IsRun(states, moves) && k < |moves| && id in states[k].rows && states[k].rows[id].status == Active
    requires id in states[k + 1].rows && states[k + 1].rows[id].status != Active
    ensures EndedByRequest(states, moves, k, id)
            || (moves[k].ReplacePassword? && moves[k].userId == states[k].rows[id].userId
                && states[k + 1].rows[id] == EndedAt(states[k].rows[id], Revoked, moves[k].now))
  {
    if moves[k].Finish? {
      FinishedIs(states, moves, k);
      hide Expires, FindsInactive, LogsOut, LogsOutAll, Uses, IsRun;
    } else {
      OtherMovesAre(states[k], moves[k]);
    }
  }

  /** What a request has read is what was there when it read: the session's row, the status of its user
      and, later, the clock. */
  lemma {:induction false} RequestsRead(states: seq<State>, moves: seq<Move>, k: nat, p: nat) returns (j: nat)
    requires IsRun(states, moves) && k < |states| && p in states[k].requests
    ensures var q := states[k].requests[p];
            && j < k && moves[j] == Read(p, q.record.id, q.intent) && q.record.id in states[j].rows
            && q.record.session == states[j].rows[q.record.id]
            && q.record.session.userId in states[j].users && q.record.userStatus == states[j].users[q.record.session.userId]
            && (q.Deciding? ==> exists i :: j < i < k && moves[i] == Choose(p, q.now, q.later))
  {
    var before, move := states[k - 1], moves[k - 1];
    if move.Read? && move.p == p {
      j := k - 1;
    } else {
      hide Decide;
      j := RequestsRead(states, moves, k - 1, p);
      if move.Choose? && move.p == p {
        assert moves[k - 1] == Choose(p, states[k].requests[p].now, states[k].requests[p].later);
      }
    }
  }
}
