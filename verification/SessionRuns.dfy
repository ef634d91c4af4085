/** Every interleaving of session requests: each reads a session, later reads the clock and decides,
    and later still executes one statement; other requests act in between. */
module SessionRuns {
  import opened Common
  import opened Sessions

  // ---- Rows over time ----

  /** How a row may develop: identity and absolute expiry are fixed, each change raises the version,
      and a row that is not active never changes. */
  ghost predicate Becomes(before: Session, after: Session) {
    && after.userId == before.userId && after.secretHash == before.secretHash
    && after.createdAt == before.createdAt && after.absoluteExpiresAt == before.absoluteExpiresAt
    && (after == before || (before.status == Active && before.version < after.version))
    && before.lastSeenAt <= after.lastSeenAt
  }

  /** The idle expiry is exactly eight hours after the last use, cut off at the absolute expiry. */
  ghost predicate RowInv(row: Session) {
    && row.absoluteExpiresAt == row.createdAt + ABSOLUTE_TIMEOUT
    && row.idleExpiresAt == Min(row.absoluteExpiresAt, row.lastSeenAt + IDLE_TIMEOUT)
    && row.createdAt <= row.lastSeenAt
    && (row.revokedAt.Some? <==> row.status != Active)
  }

  /** A touch as the service makes it, for a session with this absolute expiry. */
  ghost predicate ServiceTouch(statement: Statement, absoluteExpiresAt: int) {
    statement.Touch? ==> statement.idleExpiresAt == Min(statement.lastSeenAt + IDLE_TIMEOUT, absoluteExpiresAt)
  }

  lemma AfterBecomes(statement: Statement, id: Id, row: Session)
    ensures Becomes(row, After(statement, id, row))
  {
  }

  lemma AfterKeepsInv(statement: Statement, id: Id, row: Session)
    requires RowInv(row) && (statement.Touch? && statement.id == id ==> ServiceTouch(statement, row.absoluteExpiresAt))
    ensures RowInv(After(statement, id, row))
  {
  }

  lemma BecomesTransitive(a: Session, b: Session, c: Session)
    requires Becomes(a, b) && Becomes(b, c)
    ensures Becomes(a, c)
  {
  }

  ghost predicate RowsBecome(before: Rows, after: Rows) {
    forall id :: id in before ==> id in after && Becomes(before[id], after[id])
  }

  lemma RowsBecomeTransitive(a: Rows, b: Rows, c: Rows)
    requires RowsBecome(a, b) && RowsBecome(b, c)
    ensures RowsBecome(a, c)
  {
    forall id | id in a
      ensures id in c && Becomes(a[id], c[id])
    {
      BecomesTransitive(a[id], b[id], c[id]);
    }
  }

  // ---- The machine ----

  /** A request between its steps: it has read a session, or it has also read the clock and decided. */
  datatype Request = Reading(record: Record, intent: Intent)
                   | Deciding(record: Record, intent: Intent, now: int, later: int, plan: Plan)

  datatype State = State(rows: Rows, users: map<string, UserStatus>, requests: map<nat, Request>, clock: int)

  datatype Move =
    | Login(id: Id, userId: string, secretHash: string, csrfToken: string, now: int)
    | Read(p: nat, id: Id, intent: Intent)
    | Choose(p: nat, now: int, later: int)
    | Finish(p: nat)
    | Drop(p: nat)
    | SwitchOrganization(id: Id, userId: string, organization: string, csrfToken: string, now: int, member: bool)
    | ReplacePassword(userId: string, now: int)
    | SetUser(userId: string, status: UserStatus)

  ghost predicate Possible(s: State, move: Move) {
    match move
    case Login(id, userId, secretHash, _, _) => FreshSession(s.rows, id, secretHash) && userId in s.users
    case Read(p, id, _) => p !in s.requests && id in s.rows && s.rows[id].userId in s.users
    case Choose(p, now, later) => p in s.requests && s.requests[p].Reading?
    case Finish(p) => p in s.requests && s.requests[p].Deciding?
    case Drop(p) => p in s.requests
    case _ => true
  }

  function Time(s: State, move: Move): int {
    match move
    case Login(_, _, _, _, now) => now
    case Choose(_, _, later) => later
    case SwitchOrganization(_, _, _, _, now, _) => now
    case ReplacePassword(_, now) => now
    case _ => s.clock
  }

  function NextRows(s: State, move: Move): Rows {
    match move
    case Login(id, userId, secretHash, csrfToken, now) => s.rows[id := NewSession(userId, secretHash, csrfToken, now)]
    case Finish(p) =>
      if p in s.requests && s.requests[p].Deciding? && s.requests[p].plan.Execute? then Apply(s.rows, s.requests[p].plan.statement) else s.rows
    case SwitchOrganization(id, userId, organization, csrfToken, now, member) =>
      Apply(s.rows, Switch(id, userId, organization, csrfToken, now, member))
    case ReplacePassword(userId, now) => Apply(s.rows, RevokeAll(userId, now))
    case _ => s.rows
  }

  ghost function NextRequests(s: State, move: Move): map<nat, Request>
    requires Possible(s, move)
  {
    match move
    case Read(p, id, intent) => s.requests[p := Reading(Record(id, s.rows[id], s.users[s.rows[id].userId]), intent)]
    case Choose(p, now, later) =>
      var request := s.requests[p];
      s.requests[p := Deciding(request.record, request.intent, now, later, Decide(request.record, request.intent, now, later))]
    case Finish(p) => s.requests - {p}
    case Drop(p) => s.requests - {p}
    case _ => s.requests
  }

  ghost function Next(s: State, move: Move): State
    requires Possible(s, move)
  {
    State(NextRows(s, move), if move.SetUser? then s.users[move.userId := move.status] else s.users, NextRequests(s, move), Time(s, move))
  }

  /** The answer that a request gets when it finishes. */
  ghost function Answered(s: State, move: Move): Answer
    requires Possible(s, move) && move.Finish?
  {
    match s.requests[move.p].plan
    case Now(answer) => answer
    case Execute(statement, hit, missed) => if Affected(s.rows, statement) != {} then hit else missed
  }

  // ---- The invariant ----

  /** The record is an earlier state of the row, and while the version is the same so is the row. */
  ghost predicate RequestInv(rows: Rows, request: Request) {
    && request.record.id in rows && Becomes(request.record.session, rows[request.record.id])
    && (request.Deciding? ==> request.plan == Decide(request.record, request.intent, request.now, request.later))
  }

  ghost predicate Inv(s: State) {
    && (forall id :: id in s.rows ==> RowInv(s.rows[id]))
    && (forall p :: p in s.requests ==> RequestInv(s.rows, s.requests[p]))
  }

  ghost predicate Init(s: State) {
    s.rows == map[] && s.requests == map[]
  }

  lemma RowsMoveOn(s: State, move: Move)
    requires Possible(s, move)
    ensures RowsBecome(s.rows, NextRows(s, move))
  {
    forall id | id in s.rows
      ensures id in NextRows(s, move) && Becomes(s.rows[id], NextRows(s, move)[id])
    {
      match move
      case Finish(p) =>
        if s.requests[p].plan.Execute? {
          AfterBecomes(s.requests[p].plan.statement, id, s.rows[id]);
        }
      case SwitchOrganization(target, userId, organization, csrfToken, now, member) =>
        AfterBecomes(Switch(target, userId, organization, csrfToken, now, member), id, s.rows[id]);
      case ReplacePassword(userId, now) => AfterBecomes(RevokeAll(userId, now), id, s.rows[id]);
      case _ =>
    }
  }

  lemma FinishKeepsRows(s: State, p: nat, id: Id)
    requires Inv(s) && Possible(s, Finish(p)) && id in s.rows
    ensures RowInv(NextRows(s, Finish(p))[id])
  {
    var request := s.requests[p];
    assert RequestInv(s.rows, request);
    if request.plan.Execute? {
      AfterKeepsInv(request.plan.statement, id, s.rows[id]);
    }
  }

  lemma RowsKeepInv(s: State, move: Move)
    requires Inv(s) && Possible(s, move)
    ensures forall id :: id in NextRows(s, move) ==> RowInv(NextRows(s, move)[id])
  {
    forall id | id in NextRows(s, move)
      ensures RowInv(NextRows(s, move)[id])
    {
      match move
      case Finish(p) => FinishKeepsRows(s, p, id);
      case SwitchOrganization(target, userId, organization, csrfToken, now, member) =>
        AfterKeepsInv(Switch(target, userId, organization, csrfToken, now, member), id, s.rows[id]);
      case ReplacePassword(userId, now) => AfterKeepsInv(RevokeAll(userId, now), id, s.rows[id]);
      case _ =>
    }
  }

  lemma RequestStays(before: Rows, after: Rows, request: Request)
    requires RequestInv(before, request) && RowsBecome(before, after)
    ensures RequestInv(after, request)
  {
    BecomesTransitive(request.record.session, before[request.record.id], after[request.record.id]);
  }

  lemma ReadStarts(s: State, move: Move)
    requires Possible(s, move) && move.Read?
    ensures RequestInv(NextRows(s, move), NextRequests(s, move)[move.p])
  {
  }

  lemma NextKeepsInv(s: State, move: Move)
    requires Inv(s) && Possible(s, move)
    ensures Inv(Next(s, move)) && RowsBecome(s.rows, Next(s, move).rows)
  {
    RowsMoveOn(s, move);
    RowsKeepInv(s, move);
    var rows, requests := NextRows(s, move), NextRequests(s, move);
    forall p | p in requests
      ensures RequestInv(rows, requests[p])
    {
      hide Decide, Becomes, NextRows;
      if p in s.requests {
        RequestStays(s.rows, rows, s.requests[p]);
      } else {
        ReadStarts(s, move);
      }
    }
  }

  // ---- Runs ----

  ghost predicate IsRun(states: seq<State>, moves: seq<Move>) {
    && |states| == |moves| + 1 && Init(states[0])
    && forall i :: 0 <= i < |moves| ==> Possible(states[i], moves[i]) && states[i + 1] == Next(states[i], moves[i])
  }

  lemma {:induction false} RunKeepsInv(states: seq<State>, moves: seq<Move>, k: nat)
    requires IsRun(states, moves) && k < |states|
    ensures Inv(states[k])
  {
    if k > 0 {
      RunKeepsInv(states, moves, k - 1);
      NextKeepsInv(states[k - 1], moves[k - 1]);
    }
  }

  lemma {:induction false} RowsDevelop(states: seq<State>, moves: seq<Move>, j: nat, k: nat)
    requires IsRun(states, moves) && j <= k < |states|
    ensures RowsBecome(states[j].rows, states[k].rows)
    decreases k
  {
    hide Next, Possible;
    if j < k {
      RowsDevelop(states, moves, j, k - 1);
      RunKeepsInv(states, moves, k - 1);
      NextKeepsInv(states[k - 1], moves[k - 1]);
      RowsBecomeTransitive(states[j].rows, states[k - 1].rows, states[k].rows);
    } else {
      hide IsRun;
    }
  }

  /** Over any run the idle expiry of a session is exactly its last use plus eight hours or its absolute
      expiry, whichever is earlier, and the absolute expiry is seven days after its creation; so no
      statement ever violates the table's two CHECK constraints. */
  lemma ExpiryIsExact(states: seq<State>, moves: seq<Move>, k: nat, id: Id)
    requires IsRun(states, moves) && k < |states| && id in states[k].rows
    ensures var row := states[k].rows[id];
            && row.absoluteExpiresAt == row.createdAt + ABSOLUTE_TIMEOUT
            && row.idleExpiresAt == Min(row.absoluteExpiresAt, row.lastSeenAt + IDLE_TIMEOUT)
  {
    RunKeepsInv(states, moves, k);
  }

  /** A session is never removed; its absolute expiry never moves, its last use never goes back, and
      once revoked or expired the row stays as it is. */
  lemma EndedIsFinal(states: seq<State>, moves: seq<Move>, j: nat, k: nat, id: Id)
    requires IsRun(states, moves) && j <= k < |states| && id in states[j].rows
    ensures id in states[k].rows
    ensures states[k].rows[id].absoluteExpiresAt == states[j].rows[id].absoluteExpiresAt
    ensures states[j].rows[id].lastSeenAt <= states[k].rows[id].lastSeenAt
    ensures states[j].rows[id].status != Active ==> states[k].rows[id] == states[j].rows[id]
  {
    RowsDevelop(states, moves, j, k);
  }

  // ---- Answers ----

  /** Optimistic locking is sound: a logout, or an expiry, takes effect exactly when the row is still
      the one that was read, whatever ran in between. */
  lemma HitsIffUnchanged(states: seq<State>, moves: seq<Move>, k: nat)
    requires IsRun(states, moves) && k < |moves| && moves[k].Finish?
    requires var plan := states[k].requests[moves[k].p].plan; plan.Execute? && (plan.statement.Revoke? || plan.statement.Expire?)
    ensures var request := states[k].requests[moves[k].p];
            && request.record.id in states[k].rows
            && (Affected(states[k].rows, request.plan.statement) ==
                if states[k].rows[request.record.id] == request.record.session then {request.record.id} else {})
  {
    RunKeepsInv(states, moves, k);
    assert RequestInv(states[k].rows, states[k].requests[moves[k].p]);
  }

  lemma ViewIsOfActive(s: State, move: Move)
    requires Inv(s) && Possible(s, move) && move.Finish? && Answered(s, move).View?
    ensures var request := s.requests[move.p];
            && request.plan.Execute? && Answered(s, move) == request.plan.hit && Answered(s, move).id == request.record.id
            && request.record.id in s.rows && s.rows[request.record.id].status == Active
            && request.plan.statement.Touch? && request.plan.statement.id == request.record.id
            && ServiceTouch(request.plan.statement, s.rows[request.record.id].absoluteExpiresAt)
            && Answered(s, move).idleExpiresAt == request.plan.statement.idleExpiresAt
            && Answered(s, move).absoluteExpiresAt == s.rows[request.record.id].absoluteExpiresAt
  {
    assert RequestInv(s.rows, s.requests[move.p]);
  }

  /** Once a session is revoked or expired, no request answers with a view of it any more, not even
      one that read it before. */
  lemma NoViewAfterEnd(states: seq<State>, moves: seq<Move>, j: nat, k: nat, id: Id)
    requires IsRun(states, moves) && j <= k < |moves| && id in states[j].rows && states[j].rows[id].status != Active
    requires moves[k].Finish?
    ensures !(Answered(states[k], moves[k]).View? && Answered(states[k], moves[k]).id == id)
  {
    EndedIsFinal(states, moves, j, k, id);
    RunKeepsInv(states, moves, k);
    if Answered(states[k], moves[k]).View? {
      ViewIsOfActive(states[k], moves[k]);
    }
  }

  /** The move revokes all sessions of this user: a new password, or `logoutAll`. */
  ghost predicate RevokesAllOf(s: State, move: Move, userId: string)
    requires Possible(s, move)
  {
    || (move.ReplacePassword? && move.userId == userId)
    || (move.Finish? && Answered(s, move) == LoggedOutAll && s.requests[move.p].record.session.userId == userId)
  }

  lemma RevokesAllApplies(s: State, move: Move, userId: string)
    requires Inv(s) && Possible(s, move) && RevokesAllOf(s, move, userId)
    ensures exists now :: NextRows(s, move) == Apply(s.rows, RevokeAll(userId, now))
  {
    if move.Finish? {
      assert RequestInv(s.rows, s.requests[move.p]);
      assert s.requests[move.p].plan.statement.RevokeAll? && s.requests[move.p].plan.statement.userId == userId;
      assert NextRows(s, move) == Apply(s.rows, RevokeAll(userId, s.requests[move.p].plan.statement.now));
    } else {
      assert NextRows(s, move) == Apply(s.rows, RevokeAll(userId, move.now));
    }
  }

  /** After a new password or a `logoutAll`, every session that the user then had is ended for good. */
  lemma RevokedAllAreEnded(states: seq<State>, moves: seq<Move>, j: nat, k: nat, userId: string, id: Id)
    requires IsRun(states, moves) && j < |moves| && j < k < |states|
    requires RevokesAllOf(states[j], moves[j], userId)
    requires id in states[j].rows && states[j].rows[id].userId == userId
    ensures id in states[k].rows && states[k].rows[id].status != Active
  {
    RunKeepsInv(states, moves, j);
    RevokesAllApplies(states[j], moves[j], userId);
    EndedIsFinal(states, moves, j + 1, k, id);
  }

  // ---- Touches ----

  /** Touches of any sessions commute, on every column. */
  lemma TouchesCommute(rows: Rows, first: Statement, second: Statement)
    requires first.Touch? && second.Touch?
    ensures Apply(Apply(rows, first), second) == Apply(Apply(rows, second), first)
  {
  }

  function ApplyAll(rows: Rows, statements: seq<Statement>): Rows
    decreases |statements|
  {
    if statements == [] then rows else Apply(ApplyAll(rows, statements[..|statements| - 1]), statements[|statements| - 1])
  }

  ghost predicate Touches(statements: seq<Statement>) {
    forall i :: 0 <= i < |statements| ==> statements[i].Touch?
  }

  lemma {:induction false} MoveToEnd(rows: Rows, statements: seq<Statement>, i: nat)
    requires Touches(statements) && i < |statements|
    ensures ApplyAll(rows, statements) == Apply(ApplyAll(rows, statements[..i] + statements[i + 1..]), statements[i])
    decreases |statements|
  {
    hide Apply;
    var last, prefix := statements[|statements| - 1], statements[..|statements| - 1];
    if i == |statements| - 1 {
      assert statements[..i] + statements[i + 1..] == prefix;
    } else {
      MoveToEnd(rows, prefix, i);
      var rest := prefix[..i] + prefix[i + 1..];
      TouchesCommute(ApplyAll(rows, rest), statements[i], last);
      assert statements[..i] + statements[i + 1..] == rest + [last];
      assert (rest + [last])[..|rest|] == rest;
    }
  }

  lemma WithoutOne<T>(s: seq<T>, i: nat)
    requires i < |s|
    ensures multiset(s[..i] + s[i + 1..]) == multiset(s) - multiset{s[i]}
  {
    assert s == s[..i] + [s[i]] + s[i + 1..];
  }

  lemma SameWithoutOne<T>(one: seq<T>, other: seq<T>, i: nat)
    requires one != [] && multiset(one) == multiset(other) && i < |other| && other[i] == one[|one| - 1]
    ensures multiset(one[..|one| - 1]) == multiset(other[..i] + other[i + 1..])
  {
    WithoutOne(one, |one| - 1);
    WithoutOne(other, i);
    assert one[..|one| - 1] + one[|one|..] == one[..|one| - 1];
  }

  /** The order in which concurrent requests touch their sessions does not matter. */
  lemma {:induction false} OrderOfTouchesDoesNotMatter(rows: Rows, one: seq<Statement>, other: seq<Statement>)
    requires Touches(one) && Touches(other) && multiset(one) == multiset(other)
    ensures ApplyAll(rows, one) == ApplyAll(rows, other)
    decreases |one|
  {
    hide Apply;
    if one == [] {
      assert |multiset(one)| == |multiset(other)| == 0;
    } else {
      assert one[|one| - 1] in multiset(other);
      var i :| 0 <= i < |other| && other[i] == one[|one| - 1];
      SameWithoutOne(one, other, i);
      OrderOfTouchesDoesNotMatter(rows, one[..|one| - 1], other[..i] + other[i + 1..]);
      MoveToEnd(rows, other, i);
    }
  }

  /** The expiry that `getSession` answers is the stored one exactly when no later use of the session
      was stored since the clock was read, or the absolute expiry cuts both off. */
  lemma ViewMatchesIff(states: seq<State>, moves: seq<Move>, k: nat)
    requires IsRun(states, moves) && k < |moves| && moves[k].Finish? && Answered(states[k], moves[k]).View?
    ensures var plan := states[k].requests[moves[k].p].plan; plan.Execute? && plan.statement.Touch?
    ensures var view := Answered(states[k], moves[k]);
            var now := states[k].requests[moves[k].p].plan.statement.lastSeenAt;
            && view.id in states[k].rows && view.id in states[k + 1].rows
            && (states[k + 1].rows[view.id].idleExpiresAt == view.idleExpiresAt <==>
                states[k].rows[view.id].lastSeenAt <= now || states[k].rows[view.id].absoluteExpiresAt <= now + IDLE_TIMEOUT)
  {
    RunKeepsInv(states, moves, k);
    ViewIsOfActive(states[k], moves[k]);
    hide Decide;
  }

  // ---- A clock that does not go back ----

  ghost predicate OnTime(s: State, move: Move) {
    s.clock <= Time(s, move) && (move.Choose? ==> s.clock <= move.now <= move.later)
  }

  ghost predicate TouchInTime(request: Request, clock: int) {
    request.Deciding? && request.plan.Execute? && request.plan.statement.Touch? ==> request.plan.statement.lastSeenAt <= clock
  }

  ghost predicate TimeInv(s: State) {
    && (forall id :: id in s.rows ==> s.rows[id].lastSeenAt <= s.clock)
    && (forall p :: p in s.requests ==> TouchInTime(s.requests[p], s.clock))
  }

  ghost predicate RunsOnTime(states: seq<State>, moves: seq<Move>)
    requires IsRun(states, moves)
  {
    forall i :: 0 <= i < |moves| ==> OnTime(states[i], moves[i])
  }

  lemma RowsStayInTime(s: State, move: Move)
    requires TimeInv(s) && Possible(s, move) && OnTime(s, move)
    ensures forall id :: id in NextRows(s, move) ==> NextRows(s, move)[id].lastSeenAt <= Time(s, move)
  {
    forall id | id in NextRows(s, move)
      ensures NextRows(s, move)[id].lastSeenAt <= Time(s, move)
    {
      match move
      case Finish(p) => assert TouchInTime(s.requests[p], s.clock);
      case _ =>
    }
  }

  lemma RequestsStayInTime(s: State, move: Move)
    requires TimeInv(s) && Possible(s, move) && OnTime(s, move)
    ensures forall p :: p in NextRequests(s, move) ==> TouchInTime(NextRequests(s, move)[p], Time(s, move))
  {
    forall p | p in NextRequests(s, move)
      ensures TouchInTime(NextRequests(s, move)[p], Time(s, move))
    {
      if p in s.requests {
        assert TouchInTime(s.requests[p], s.clock);
      }
    }
  }

  lemma {:induction false} RunKeepsTime(states: seq<State>, moves: seq<Move>, k: nat)
    requires IsRun(states, moves) && k < |states| && RunsOnTime(states, moves)
    ensures TimeInv(states[k])
  {
    if k > 0 {
      RunKeepsTime(states, moves, k - 1);
      assert OnTime(states[k - 1], moves[k - 1]);
      RowsStayInTime(states[k - 1], moves[k - 1]);
      RequestsStayInTime(states[k - 1], moves[k - 1]);
      hide NextRows, NextRequests, Time;
    }
  }

  /** With a clock that does not go back, a `getSession` that stores its touch before anything else
      happens answers the expiry that is then stored. */
  lemma ViewIsStored(states: seq<State>, moves: seq<Move>, k: nat, p: nat, now: int, later: int)
    requires IsRun(states, moves) && RunsOnTime(states, moves) && k + 1 < |moves|
    requires moves[k] == Choose(p, now, later) && moves[k + 1] == Finish(p)
    requires Answered(states[k + 1], moves[k + 1]).View?
    ensures var view := Answered(states[k + 1], moves[k + 1]);
            view.id in states[k + 2].rows && states[k + 2].rows[view.id].idleExpiresAt == view.idleExpiresAt
  {
    RunKeepsTime(states, moves, k);
    assert OnTime(states[k], moves[k]);
    ViewMatchesIff(states, moves, k + 1);
    RunKeepsInv(states, moves, k + 1);
    ViewIsOfActive(states[k + 1], moves[k + 1]);
    assert states[k + 1].rows == states[k].rows;
    assert states[k + 1].requests[p].plan.statement.lastSeenAt == now;
  }

  /** The clock alone is not enough: a request that is overtaken by a later touch answers an expiry
      earlier than the stored one. */
  lemma OvertakenViewIsStale(row: Session, id: Id, early: int, late: int)
    requires row.status == Active && RowInv(row) && row.lastSeenAt <= early < late < row.idleExpiresAt
    requires early + IDLE_TIMEOUT < row.absoluteExpiresAt
    ensures var record := Record(id, row, UserActive);
            var first, second := Decide(record, GetSession, early, early), Decide(record, GetSession, late, late);
            && first.Execute? && second.Execute?
            && var rows := Apply(Apply(map[id := row], second.statement), first.statement);
               id in Affected(Apply(map[id := row], second.statement), first.statement)
               && first.hit.View? && first.hit.idleExpiresAt < rows[id].idleExpiresAt
  {
  }
}
