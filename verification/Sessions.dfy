/** Session rows of modules/authentication/src/index.ts and the statements on them, with the
    organization switch of modules/organization-context/src/index.ts. Times are milliseconds. */
module Sessions {
  import opened Common

  const IDLE_TIMEOUT := 8 * 60 * 60 * 1000
  const ABSOLUTE_TIMEOUT := 7 * 24 * 60 * 60 * 1000

  datatype Status = Active | Revoked | Expired

  datatype Session = Session(userId: string, secretHash: string, csrfToken: string, status: Status, revision: nat,
                             organization: Option<string>, createdAt: int, lastSeenAt: int, idleExpiresAt: int,
                             absoluteExpiresAt: int, revokedAt: Option<int>, updatedAt: int, version: nat)

  type Id = string
  type Rows = map<Id, Session>

  function Min(a: int, b: int): int { if a < b then a else b }

  function Max(a: int, b: int): int { if a < b then b else a }

  datatype Statement =
    | Touch(id: Id, lastSeenAt: int, idleExpiresAt: int, updatedAt: int)
    | Expire(id: Id, expectedVersion: nat, now: int)
    | Revoke(id: Id, expectedVersion: nat, now: int)
    | RevokeAll(userId: string, now: int)
    | Switch(id: Id, userId: string, organization: string, csrfToken: string, now: int, member: bool)

  /** The WHERE clause. */
  predicate Hits(statement: Statement, id: Id, row: Session) {
    && row.status == Active
    && match statement
       case Touch(target, _, _, _) => id == target
       case Expire(target, expected, _) => id == target && row.version == expected
       case Revoke(target, expected, _) => id == target && row.version == expected
       case RevokeAll(userId, _) => row.userId == userId
       case Switch(target, userId, _, _, _, member) => id == target && row.userId == userId && member
  }

  /** The SET clause. */
  function Updated(statement: Statement, row: Session): Session {
    match statement
    case Touch(_, lastSeenAt, idleExpiresAt, updatedAt) =>
      row.(lastSeenAt := Max(row.lastSeenAt, lastSeenAt),
           idleExpiresAt := Min(row.absoluteExpiresAt, Max(row.idleExpiresAt, idleExpiresAt)),
           updatedAt := Max(row.updatedAt, updatedAt), version := row.version + 1)
    case Expire(_, _, now) => Ended(row, Expired, now)
    case Revoke(_, _, now) => Ended(row, Revoked, now)
    case RevokeAll(_, now) => Ended(row, Revoked, now)
    case Switch(_, _, organization, csrfToken, now, _) =>
      row.(organization := Some(organization), csrfToken := csrfToken, revision := row.revision + 1, updatedAt := now,
           version := row.version + 1)
  }

  function Ended(row: Session, status: Status, now: int): Session {
    row.(status := status, revision := row.revision + 1, revokedAt := Some(now), updatedAt := now, version := row.version + 1)
  }

  function After(statement: Statement, id: Id, row: Session): Session {
    if Hits(statement, id, row) then Updated(statement, row) else row
  }

  function Apply(rows: Rows, statement: Statement): Rows {
    map id | id in rows :: After(statement, id, rows[id])
  }

  function Affected(rows: Rows, statement: Statement): set<Id> {
    set id | id in rows && Hits(statement, id, rows[id])
  }

  /** The row that `login` inserts. */
  function NewSession(userId: string, secretHash: string, csrfToken: string, now: int): Session {
    Session(userId, secretHash, csrfToken, Active, 1, None, now, now, now + IDLE_TIMEOUT, now + ABSOLUTE_TIMEOUT, None, now, 1)
  }

  ghost predicate FreshSession(rows: Rows, id: Id, secretHash: string) {
    id !in rows && forall other :: other in rows ==> rows[other].secretHash != secretHash
  }

  // ---- What the service does with a session it has read ----

  datatype UserStatus = UserPending | UserActive | UserDisabled

  /** A session joined with the status of its user, as one read sees them. */
  datatype Record = Record(id: Id, session: Session, userStatus: UserStatus)

  datatype Error = SessionRequired | SessionExpired | SessionRevoked | CsrfInvalid

  datatype Intent = GetSession | Logout(csrfToken: string) | LogoutAll(csrfToken: string)

  datatype Answer = Failed(error: Error) | View(id: Id, idleExpiresAt: int, absoluteExpiresAt: int) | LoggedOut | LoggedOutAll

  /** What follows a read: an answer at once, or a statement and the answers for it hitting and missing. */
  datatype Plan = Now(answer: Answer) | Execute(statement: Statement, hit: Answer, missed: Answer)

  /** `resolveActiveSession` after its read; None if the session is live. */
  function Refusal(record: Record, now: int): Option<Plan> {
    var s := record.session;
    if s.status == Revoked then Some(Now(Failed(SessionRevoked)))
    else if s.status == Expired then Some(Now(Failed(SessionExpired)))
    else if now >= s.idleExpiresAt || now >= s.absoluteExpiresAt then
      Some(Execute(Expire(record.id, s.version, now), Failed(SessionExpired), Failed(SessionExpired)))
    else if record.userStatus != UserActive then
      Some(Execute(RevokeAll(s.userId, now), Failed(SessionRevoked), Failed(SessionRevoked)))
    else None
  }

  predicate CsrfMatches(record: Record, csrfToken: string) {
    csrfToken != "" && record.session.csrfToken == csrfToken
  }

  function NextIdle(record: Record, now: int): int {
    Min(now + IDLE_TIMEOUT, record.session.absoluteExpiresAt)
  }

  /** `getSession`, `logout` and `logoutAll` after their read, with the clock read at `now` and, for
      the two logouts, again at `later`. */
  function Decide(record: Record, intent: Intent, now: int, later: int): Plan {
    if Refusal(record, now).Some? then Refusal(record, now).value
    else match intent
      case GetSession =>
        Execute(Touch(record.id, now, NextIdle(record, now), now),
                View(record.id, NextIdle(record, now), record.session.absoluteExpiresAt), Failed(SessionRevoked))
      case Logout(csrfToken) =>
        if !CsrfMatches(record, csrfToken) then Now(Failed(CsrfInvalid))
        else Execute(Revoke(record.id, record.session.version, later), LoggedOut, Failed(SessionRevoked))
      case LogoutAll(csrfToken) =>
        if !CsrfMatches(record, csrfToken) then Now(Failed(CsrfInvalid))
        else Execute(RevokeAll(record.session.userId, later), LoggedOutAll, LoggedOutAll)
  }

  /** The session as read is active and in time, and its user may use it. */
  ghost predicate Live(record: Record, now: int) {
    && record.session.status == Active && record.userStatus == UserActive
    && now < record.session.idleExpiresAt && now < record.session.absoluteExpiresAt
  }

  /** A request can be answered with anything but an error iff the session is live and, for a logout,
      the token is the session's own and not empty. */
  lemma AnsweredIffLive(record: Record, intent: Intent, now: int, later: int)
    ensures (Decide(record, intent, now, later).Execute? && !Decide(record, intent, now, later).hit.Failed?) <==>
            Live(record, now) && (intent.GetSession? || (intent.csrfToken != "" && intent.csrfToken == record.session.csrfToken))
    ensures Decide(record, intent, now, later) == Now(Failed(CsrfInvalid)) <==>
            Live(record, now) && !intent.GetSession? && !(intent.csrfToken != "" && intent.csrfToken == record.session.csrfToken)
  {
  }

  // ---- The table ----

  class SessionTable {
    var rows: Rows

    constructor ()
      ensures rows == map[]
    {
      rows := map[];
    }

    /** A primary key or a secret that is taken refuses the insert. */
    method CreateSession(id: Id, session: Session) returns (created: bool)
      modifies this
      ensures created <==> FreshSession(old(rows), id, session.secretHash)
      ensures rows == if created then old(rows)[id := session] else old(rows)
    {
      if id in rows {
        return false;
      }
      var other := FindSessionBySecretHash(session.secretHash);
      if other.Some? {
        return false;
      }
      rows := rows[id := session];
      return true;
    }

    method FindSessionBySecretHash(secretHash: string) returns (found: Option<Id>)
      ensures found.Some? ==> found.value in rows && rows[found.value].secretHash == secretHash
      ensures found == None ==> forall id :: id in rows ==> rows[id].secretHash != secretHash
    {
      if id :| id in rows && rows[id].secretHash == secretHash {
        return Some(id);
      }
      return None;
    }

    method TouchSession(id: Id, lastSeenAt: int, idleExpiresAt: int, updatedAt: int) returns (touched: bool)
      modifies this
      ensures rows == Apply(old(rows), Touch(id, lastSeenAt, idleExpiresAt, updatedAt))
      ensures touched <==> id in Affected(old(rows), Touch(id, lastSeenAt, idleExpiresAt, updatedAt))
    {
      if id !in rows || rows[id].status != Active {
        return false;
      }
      var row := rows[id];
      var idle := if row.idleExpiresAt < idleExpiresAt then idleExpiresAt else row.idleExpiresAt;
      rows := rows[id := row.(lastSeenAt := if row.lastSeenAt < lastSeenAt then lastSeenAt else row.lastSeenAt,
                              idleExpiresAt := if row.absoluteExpiresAt < idle then row.absoluteExpiresAt else idle,
                              updatedAt := if row.updatedAt < updatedAt then updatedAt else row.updatedAt,
                              version := row.version + 1)];
      return true;
    }

    method ExpireSession(id: Id, expectedVersion: nat, now: int) returns (expired: bool)
      modifies this
      ensures rows == Apply(old(rows), Expire(id, expectedVersion, now))
      ensures expired <==> id in Affected(old(rows), Expire(id, expectedVersion, now))
    {
      if id !in rows || rows[id].version != expectedVersion || rows[id].status != Active {
        return false;
      }
      rows := rows[id := Ended(rows[id], Expired, now)];
      return true;
    }

    method RevokeSession(id: Id, expectedVersion: nat, now: int) returns (revoked: bool)
      modifies this
      ensures rows == Apply(old(rows), Revoke(id, expectedVersion, now))
      ensures revoked <==> id in Affected(old(rows), Revoke(id, expectedVersion, now))
    {
      if id !in rows || rows[id].version != expectedVersion || rows[id].status != Active {
        return false;
      }
      rows := rows[id := Ended(rows[id], Revoked, now)];
      return true;
    }

    method RevokeAllUserSessions(userId: string, now: int) returns (count: nat)
      modifies this
      ensures rows == Apply(old(rows), RevokeAll(userId, now))
      ensures count == |Affected(old(rows), RevokeAll(userId, now))|
    {
      var hit := set id | id in rows && rows[id].userId == userId && rows[id].status == Active;
      assert hit == Affected(rows, RevokeAll(userId, now));
      rows := map id | id in rows :: if id in hit then Ended(rows[id], Revoked, now) else rows[id];
      return |hit|;
    }

    /** One request that nothing interrupts: the read, the decision, and its statement. */
    method Request(secretHash: string, users: map<string, UserStatus>, intent: Intent, now: int, later: int) returns (answer: Answer)
      requires forall id :: id in rows ==> rows[id].userId in users
      modifies this
      ensures answer == Failed(SessionRequired) ==> rows == old(rows) && forall id :: id in rows ==> rows[id].secretHash != secretHash
      ensures answer != Failed(SessionRequired) ==>
                exists id :: id in old(rows) && old(rows)[id].secretHash == secretHash
                             && Served(old(rows), rows, Record(id, old(rows)[id], users[old(rows)[id].userId]), intent, now, later, answer)
    {
      var found := FindSessionBySecretHash(secretHash);
      if found == None {
        return Failed(SessionRequired);
      }
      var record := Record(found.value, rows[found.value], users[rows[found.value].userId]);
      match Decide(record, intent, now, later)
      case Now(given) => answer := given;
      case Execute(statement, hit, missed) =>
        var done: bool;
        match statement {
          case Touch(id, lastSeenAt, idle, updatedAt) => done := TouchSession(id, lastSeenAt, idle, updatedAt);
          case Expire(id, version, time) => done := ExpireSession(id, version, time);
          case Revoke(id, version, time) => done := RevokeSession(id, version, time);
          case RevokeAll(userId, time) =>
            var count := RevokeAllUserSessions(userId, time);
            done := count > 0;
            assert count > 0 <==> Affected(old(rows), statement) != {};
        }
        answer := if done then hit else missed;
    }
  }

  /** `answer` and the new rows are what the decision about `record` asks for. */
  ghost predicate Served(before: Rows, after: Rows, record: Record, intent: Intent, now: int, later: int, answer: Answer) {
    match Decide(record, intent, now, later)
    case Now(given) => answer == given && after == before
    case Execute(statement, hit, missed) =>
      after == Apply(before, statement) && answer == if Affected(before, statement) != {} then hit else missed
  }
}
