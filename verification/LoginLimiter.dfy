/** The login limiter of modules/authentication/src/index.ts. Times are milliseconds; a key is the
    hash of a client address and an e-mail. */
module LoginLimiter {
  import opened Common

  const LOGIN_FAILURE_LIMIT: nat := 5
  const LOGIN_FAILURE_WINDOW: nat := 15 * 60 * 1000

  datatype Policy = Policy(limit: nat, window: nat)

  const AUTHENTICATION_POLICY := Policy(LOGIN_FAILURE_LIMIT, LOGIN_FAILURE_WINDOW)

  datatype Row = Row(failures: nat, windowStart: int, blockedUntil: Option<int>)

  type Rows = map<string, Row>

  /** What the credential check of an attempt would find. */
  datatype Credentials = Wrong | OfInactiveUser | Accepted

  datatype Attempt = Attempt(key: string, now: int, credentials: Credentials)

  datatype Outcome = RateLimited | InvalidCredentials | AccountDisabled | LoggedIn

  function Find(rows: Rows, key: string): Option<Row> {
    if key in rows then Some(rows[key]) else None
  }

  /** The row after the upsert of `recordLoginFailure`. */
  function Upserted(p: Policy, row: Option<Row>, now: int): Row {
    if row == None then Row(1, now, None)
    else
      var elapsed := now - row.value.windowStart >= p.window;
      var failures := if elapsed then 1 else row.value.failures + 1;
      Row(failures, if elapsed then now else row.value.windowStart, if failures >= p.limit then Some(now + p.window) else None)
  }

  predicate Blocked(row: Option<Row>, now: int) {
    row.Some? && row.value.blockedUntil.Some? && row.value.blockedUntil.value > now
  }

  function Answer(rows: Rows, a: Attempt): Outcome {
    if Blocked(Find(rows, a.key), a.now) then RateLimited
    else match a.credentials
      case Wrong => InvalidCredentials
      case OfInactiveUser => AccountDisabled
      case Accepted => LoggedIn
  }

  function After(p: Policy, rows: Rows, a: Attempt): Rows {
    match Answer(rows, a)
    case RateLimited => rows
    case LoggedIn => rows - {a.key}
    case _ => rows[a.key := Upserted(p, Find(rows, a.key), a.now)]
  }

  /** The table public.orgawork_login_rate_limits and the statements on it. */
  class RateLimits {
    var rows: Rows

    constructor ()
      ensures rows == map[]
    {
      rows := map[];
    }

    method ReadRateLimit(key: string) returns (row: Option<Row>)
      ensures row == Find(rows, key)
    {
      if key in rows {
        row := Some(rows[key]);
      } else {
        row := None;
      }
    }

    method RecordLoginFailure(key: string, now: int, p: Policy) returns (row: Row)
      modifies this
      ensures row == Upserted(p, Find(old(rows), key), now)
      ensures rows == old(rows)[key := row]
    {
      if key !in rows {
        row := Row(1, now, None);
      } else {
        row := rows[key];
        var elapsed := now - row.windowStart >= p.window;
        var failures := if elapsed then 1 else row.failures + 1;
        row := row.(failures := failures);
        if elapsed {
          row := row.(windowStart := now);
        }
        row := row.(blockedUntil := if failures >= p.limit then Some(now + p.window) else None);
      }
      rows := rows[key := row];
    }

    method ClearRateLimit(key: string)
      modifies this
      ensures rows == old(rows) - {key}
    {
      rows := rows - {key};
    }

    /** The limiter's part of `login`. */
    method Login(a: Attempt, p: Policy) returns (outcome: Outcome)
      modifies this
      ensures outcome == Answer(old(rows), a)
      ensures rows == After(p, old(rows), a)
    {
      var current := ReadRateLimit(a.key);
      if current.Some? && current.value.blockedUntil.Some? && current.value.blockedUntil.value > a.now {
        return RateLimited;
      }
      if a.credentials.Wrong? {
        var _ := RecordLoginFailure(a.key, a.now, p);
        return InvalidCredentials;
      }
      if a.credentials.OfInactiveUser? {
        var _ := RecordLoginFailure(a.key, a.now, p);
        return AccountDisabled;
      }
      ClearRateLimit(a.key);
      return LoggedIn;
    }
  }

  // ---- Runs of attempts, on any keys ----

  function RowsAfter(p: Policy, attempts: seq<Attempt>): Rows
    decreases |attempts|
  {
    if attempts == [] then map[] else After(p, RowsAfter(p, attempts[..|attempts| - 1]), attempts[|attempts| - 1])
  }

  /** The answer to the last attempt of a run. */
  function LastAnswer(p: Policy, attempts: seq<Attempt>): Outcome
    requires attempts != []
  {
    Answer(RowsAfter(p, attempts[..|attempts| - 1]), attempts[|attempts| - 1])
  }

  /** The times of the failures on `key` since its last successful login. */
  function Failures(p: Policy, attempts: seq<Attempt>, key: string): seq<int>
    decreases |attempts|
  {
    if attempts == [] then []
    else
      var last := attempts[|attempts| - 1];
      var before := Failures(p, attempts[..|attempts| - 1], key);
      if last.key != key then before
      else match LastAnswer(p, attempts)
        case RateLimited => before
        case LoggedIn => []
        case _ => before + [last.now]
  }

  ghost predicate InTimeOrder(attempts: seq<Attempt>) {
    forall i, j :: 0 <= i < j < |attempts| ==> attempts[i].now <= attempts[j].now
  }

  ghost predicate Sorted(times: seq<int>) {
    forall i, j :: 0 <= i <= j < |times| ==> times[i] <= times[j]
  }

  /** Any `gap` + 1 consecutive times span at least `width`. */
  ghost predicate Spread(times: seq<int>, gap: nat, width: nat) {
    forall i, j :: 0 <= i && j == i + gap && j < |times| ==> times[i] + width <= times[j]
  }

  /** The row that the failures leave: its window holds the latest of them, at most `limit`, and it is
      blocked exactly when that many are reached. */
  ghost predicate RowReflects(p: Policy, times: seq<int>, row: Option<Row>) {
    match row
    case None => times == []
    case Some(r) =>
      && 1 <= r.failures <= |times| && r.failures <= p.limit
      && r.windowStart == times[|times| - r.failures]
      && r.blockedUntil == (if r.failures == p.limit then Some(times[|times| - 1] + p.window) else None)
  }

  /** A window starts at least `window` after the failure `limit` - 1 places before it. */
  ghost predicate WindowStartsLate(p: Policy, times: seq<int>, row: Option<Row>)
    requires p.limit >= 2 && RowReflects(p, times, row)
  {
    row.Some? && |times| - row.value.failures >= p.limit - 1 ==>
      times[|times| - row.value.failures - (p.limit - 1)] + p.window <= row.value.windowStart
  }

  ghost predicate KeyInv(p: Policy, times: seq<int>, row: Option<Row>)
    requires p.limit >= 2
  {
    Sorted(times) && RowReflects(p, times, row) && WindowStartsLate(p, times, row) && Spread(times, 2 * p.limit - 2, p.window)
  }

  lemma FailureIsReflected(p: Policy, times: seq<int>, row: Option<Row>, now: int)
    requires p.limit >= 2 && KeyInv(p, times, row) && !Blocked(row, now)
    requires times != [] ==> times[|times| - 1] <= now
    ensures Sorted(times + [now]) && RowReflects(p, times + [now], Some(Upserted(p, row, now)))
  {
    hide Spread, WindowStartsLate;
  }

  lemma NewWindowStartsLate(p: Policy, times: seq<int>, row: Option<Row>, now: int)
    requires p.limit >= 2 && KeyInv(p, times, row) && !Blocked(row, now)
    requires times != [] ==> times[|times| - 1] <= now
    requires RowReflects(p, times + [now], Some(Upserted(p, row, now)))
    ensures WindowStartsLate(p, times + [now], Some(Upserted(p, row, now)))
  {
    hide Spread;
    if row.Some? && |times| >= p.limit - 1 && Upserted(p, row, now).failures == 1 {
      assert times[|times| - (p.limit - 1)] + p.window <= now;
    }
  }

  lemma FailureKeepsSpread(p: Policy, times: seq<int>, row: Option<Row>, now: int)
    requires p.limit >= 2 && KeyInv(p, times, row) && !Blocked(row, now) && |times| >= 2 * p.limit - 2
    requires times[|times| - 1] <= now
    ensures times[|times| - (2 * p.limit - 2)] + p.window <= now
  {
    hide Spread;
  }

  lemma FailureKeepsInv(p: Policy, times: seq<int>, row: Option<Row>, now: int)
    requires p.limit >= 2 && KeyInv(p, times, row) && !Blocked(row, now)
    requires times != [] ==> times[|times| - 1] <= now
    ensures KeyInv(p, times + [now], Some(Upserted(p, row, now)))
  {
    FailureIsReflected(p, times, row, now);
    NewWindowStartsLate(p, times, row, now);
    if |times| >= 2 * p.limit - 2 {
      FailureKeepsSpread(p, times, row, now);
    }
    hide Sorted, RowReflects, WindowStartsLate, Upserted;
  }

  lemma {:induction false} FailuresAreEarlier(p: Policy, attempts: seq<Attempt>, key: string)
    requires attempts != [] && InTimeOrder(attempts)
    ensures forall i :: 0 <= i < |Failures(p, attempts, key)| ==> Failures(p, attempts, key)[i] <= attempts[|attempts| - 1].now
    decreases |attempts|
  {
    var prefix := attempts[..|attempts| - 1];
    if prefix != [] {
      FailuresAreEarlier(p, prefix, key);
    }
  }

  /** Keys do not affect each other. */
  lemma OtherKeysUntouched(p: Policy, rows: Rows, a: Attempt, key: string)
    requires key != a.key
    ensures Find(After(p, rows, a), key) == Find(rows, key)
  {
  }

  lemma {:induction false} RunKeepsInv(p: Policy, attempts: seq<Attempt>, key: string)
    requires p.limit >= 2 && InTimeOrder(attempts)
    ensures KeyInv(p, Failures(p, attempts, key), Find(RowsAfter(p, attempts), key))
    decreases |attempts|
  {
    if attempts != [] {
      var prefix, last := attempts[..|attempts| - 1], attempts[|attempts| - 1];
      RunKeepsInv(p, prefix, key);
      var times, rows := Failures(p, prefix, key), RowsAfter(p, prefix);
      if last.key == key && LastAnswer(p, attempts) in {InvalidCredentials, AccountDisabled} {
        if prefix != [] {
          FailuresAreEarlier(p, prefix, key);
        }
        FailureKeepsInv(p, times, Find(rows, key), last.now);
      }
    }
  }

  /** Over every run in time order, since the last success the count never exceeds the limit, and
      the key is blocked, for one window from the latest failure, exactly when the count reaches it. */
  lemma {:induction false} BlockedExactlyAtLimit(p: Policy, attempts: seq<Attempt>, key: string)
    requires p.limit >= 2 && InTimeOrder(attempts) && key in RowsAfter(p, attempts)
    ensures var row := RowsAfter(p, attempts)[key];
            var times := Failures(p, attempts, key);
            && 1 <= row.failures <= p.limit && row.failures <= |times|
            && row.windowStart == times[|times| - row.failures]
            && (row.blockedUntil.Some? <==> row.failures == p.limit)
            && (row.blockedUntil.Some? ==> row.blockedUntil.value == times[|times| - 1] + p.window)
  {
    RunKeepsInv(p, attempts, key);
  }

  /** The insert never blocks, so a limit of one would be exceeded: the condition above is exact. */
  lemma {:induction false} LimitOneIsExceeded(p: Policy, key: string, now: int)
    requires p.limit == 1 && p.window > 0
    ensures var attempts := [Attempt(key, now, Wrong), Attempt(key, now, Wrong)];
            && key in RowsAfter(p, attempts) && RowsAfter(p, attempts)[key].failures == 2
            && key in RowsAfter(p, attempts[..1]) && RowsAfter(p, attempts[..1])[key] == Row(1, now, None)
  {
    var first, second := Attempt(key, now, Wrong), Attempt(key, now, Wrong);
    assert [first, second][..1] == [first];
    assert [first][..0] == [];
    assert RowsAfter(p, [first]) == After(p, map[], first);
    assert RowsAfter(p, [first, second]) == After(p, After(p, map[], first), second);
  }

  /** Two attempts that both pass the check one failure short of the limit are both recorded, and the
      count exceeds the limit. `LoginOverlap` says how far it can go. */
  lemma OverlappingAttemptsExceedLimit(p: Policy, row: Row, now: int)
    requires p.limit >= 2 && row.failures == p.limit - 1 && row.blockedUntil == None && now < row.windowStart + p.window
    ensures !Blocked(Some(row), now)
    ensures Upserted(p, Some(Upserted(p, Some(row), now)), now).failures == p.limit + 1
  {
  }

  // ---- For which policies the limiter does what it is for ----

  /** On every serial run the count stays within the limit. */
  ghost predicate KeepsLimit(p: Policy, key: string) {
    forall attempts :: InTimeOrder(attempts) && key in RowsAfter(p, attempts) ==> RowsAfter(p, attempts)[key].failures <= p.limit
  }

  /** On every serial run a key is blocked exactly when its count has reached the limit. */
  ghost predicate BlocksAtLimit(p: Policy, key: string) {
    forall attempts :: InTimeOrder(attempts) && key in RowsAfter(p, attempts) ==>
      (RowsAfter(p, attempts)[key].blockedUntil.Some? <==> RowsAfter(p, attempts)[key].failures >= p.limit)
  }

  lemma FirstFailure(p: Policy, key: string, now: int)
    ensures InTimeOrder([Attempt(key, now, Wrong)])
    ensures RowsAfter(p, [Attempt(key, now, Wrong)]) == map[key := Row(1, now, None)]
  {
    var first := [Attempt(key, now, Wrong)];
    assert first[..0] == [];
    assert RowsAfter(p, first) == After(p, map[], first[0]);
  }

  lemma {:induction false} EmptyWindowRestarts(p: Policy, attempts: seq<Attempt>, key: string)
    requires p.window == 0 && InTimeOrder(attempts) && key in RowsAfter(p, attempts)
    ensures attempts != [] && RowsAfter(p, attempts)[key].failures == 1 && RowsAfter(p, attempts)[key].windowStart <= attempts[|attempts| - 1].now
    decreases |attempts|
  {
    var prefix := attempts[..|attempts| - 1];
    if key in RowsAfter(p, prefix) {
      EmptyWindowRestarts(p, prefix, key);
    }
  }

  lemma KeepsLimitIff(p: Policy, key: string)
    ensures KeepsLimit(p, key) <==> p.limit >= 2 || (p.limit == 1 && p.window == 0)
  {
    if p.limit >= 2 || (p.limit == 1 && p.window == 0) {
      forall attempts | InTimeOrder(attempts) && key in RowsAfter(p, attempts)
        ensures RowsAfter(p, attempts)[key].failures <= p.limit
      {
        if p.limit >= 2 {
          BlockedExactlyAtLimit(p, attempts, key);
        } else {
          EmptyWindowRestarts(p, attempts, key);
        }
      }
    } else if p.limit == 0 {
      FirstFailure(p, key, 0);
      assert key in RowsAfter(p, [Attempt(key, 0, Wrong)]);
    } else {
      LimitOneIsExceeded(p, key, 0);
      assert InTimeOrder([Attempt(key, 0, Wrong), Attempt(key, 0, Wrong)]);
    }
  }

  lemma BlocksAtLimitIff(p: Policy, key: string)
    ensures BlocksAtLimit(p, key) <==> p.limit >= 2
  {
    if p.limit >= 2 {
      forall attempts | InTimeOrder(attempts) && key in RowsAfter(p, attempts)
        ensures RowsAfter(p, attempts)[key].blockedUntil.Some? <==> RowsAfter(p, attempts)[key].failures >= p.limit
      {
        BlockedExactlyAtLimit(p, attempts, key);
      }
    } else {
      FirstFailure(p, key, 0);
      assert key in RowsAfter(p, [Attempt(key, 0, Wrong)]);
    }
  }

  // ---- How many failures fit into any interval of one window ----

  ghost function Within(times: seq<int>, from: int, to: int): set<nat> {
    set i: nat | i < |times| && from <= times[i] < to
  }

  lemma {:induction false} RangeBound(s: set<nat>, low: nat, n: nat)
    requires forall i :: i in s ==> low <= i < low + n
    ensures |s| <= n
    decreases n
  {
    if n == 0 {
      assert s == {};
    } else {
      var last := low + n - 1;
      RangeBound(s - {last}, low, n - 1);
    }
  }

  function Range(low: nat, n: nat): (r: set<nat>)
    ensures |r| == n && forall i: nat :: i in r <==> low <= i < low + n
  {
    if n == 0 then {} else Range(low, n - 1) + {low + n - 1}
  }

  lemma FirstFrom(times: seq<int>, from: int) returns (m: nat)
    ensures m <= |times| && (forall i :: 0 <= i < m ==> times[i] < from) && (m < |times| ==> from <= times[m])
  {
    m := 0;
    while m < |times| && times[m] < from
      invariant m <= |times| && forall i :: 0 <= i < m ==> times[i] < from
    {
      m := m + 1;
    }
  }

  lemma FarApart(times: seq<int>, gap: nat, width: nat, i: nat, j: nat)
    requires Sorted(times) && Spread(times, gap, width) && i + gap <= j < |times|
    ensures times[i] + width <= times[j]
  {
    assert times[i + gap] <= times[j];
  }

  lemma SpreadBoundsCount(times: seq<int>, gap: nat, width: nat, from: int)
    requires Sorted(times) && Spread(times, gap, width)
    ensures |Within(times, from, from + width)| <= gap
  {
    var m := FirstFrom(times, from);
    var s := Within(times, from, from + width);
    forall i | i in s
      ensures m <= i < m + gap
    {
      if m + gap <= i {
        FarApart(times, gap, width, m, i);
      }
    }
    RangeBound(s, m, gap);
  }

  /** In any half-open interval of one window, at most 2 * limit - 2 failures are recorded on a key
      since its last success, wherever the limiter's own windows begin. */
  lemma {:induction false} FailuresPerWindow(p: Policy, attempts: seq<Attempt>, key: string, from: int)
    requires p.limit >= 2 && InTimeOrder(attempts)
    ensures |Within(Failures(p, attempts, key), from, from + p.window)| <= 2 * p.limit - 2
  {
    RunKeepsInv(p, attempts, key);
    SpreadBoundsCount(Failures(p, attempts, key), 2 * p.limit - 2, p.window, from);
  }

  /** With the shipped policy: eight failures in any fifteen minutes. */
  lemma {:induction false} EightFailuresPerFifteenMinutes(attempts: seq<Attempt>, key: string, from: int)
    requires InTimeOrder(attempts)
    ensures |Within(Failures(AUTHENTICATION_POLICY, attempts, key), from, from + 15 * 60 * 1000)| <= 8
  {
    FailuresPerWindow(AUTHENTICATION_POLICY, attempts, key, from);
  }

  // ---- The bound is reached ----

  function Repeat<T>(x: T, n: nat): (s: seq<T>)
    ensures |s| == n && forall i :: 0 <= i < n ==> s[i] == x
  {
    seq(n, _ => x)
  }

  /** The current window of the key is open at `now`, with so many failures in it. */
  ghost predicate Open(p: Policy, attempts: seq<Attempt>, key: string, now: int, failures: nat, windowStart: int) {
    && key in RowsAfter(p, attempts) && now < windowStart + p.window
    && RowsAfter(p, attempts)[key].failures == failures && RowsAfter(p, attempts)[key].windowStart == windowStart
    && (failures < p.limit ==> RowsAfter(p, attempts)[key].blockedUntil == None)
  }

  lemma {:induction false} WrongAttemptIsRecorded(p: Policy, attempts: seq<Attempt>, key: string, now: int, failures: nat, windowStart: int)
    requires Open(p, attempts, key, now, failures, windowStart) && failures < p.limit
    ensures Open(p, attempts + [Attempt(key, now, Wrong)], key, now, failures + 1, windowStart)
    ensures Failures(p, attempts + [Attempt(key, now, Wrong)], key) == Failures(p, attempts, key) + [now]
  {
    var all := attempts + [Attempt(key, now, Wrong)];
    assert all[..|all| - 1] == attempts;
  }

  /** `n` wrong attempts at one time inside the current window, up to the limit, all get recorded. */
  lemma {:induction false} BurstIsRecorded(p: Policy, attempts: seq<Attempt>, key: string, now: int, n: nat, failures: nat, windowStart: int)
    requires Open(p, attempts, key, now, failures, windowStart) && failures + n <= p.limit
    ensures Open(p, attempts + Repeat(Attempt(key, now, Wrong), n), key, now, failures + n, windowStart)
    ensures Failures(p, attempts + Repeat(Attempt(key, now, Wrong), n), key) == Failures(p, attempts, key) + Repeat(now, n)
    decreases n
  {
    hide Open, Failures;
    var a := Attempt(key, now, Wrong);
    var all := attempts + Repeat(a, n);
    if n == 0 {
      assert all == attempts;
    } else {
      BurstIsRecorded(p, attempts, key, now, n - 1, failures, windowStart);
      WrongAttemptIsRecorded(p, attempts + Repeat(a, n - 1), key, now, failures + n - 1, windowStart);
      assert all == attempts + Repeat(a, n - 1) + [a];
      assert Repeat(now, n) == Repeat(now, n - 1) + [now];
    }
  }

  /** One failure, limit - 2 more just before its window ends, and limit more in the next window. */
  function WorstCase(p: Policy, key: string): seq<Attempt>
    requires p.limit >= 2
  {
    [Attempt(key, 0, Wrong)] + Repeat(Attempt(key, p.window - 1, Wrong), p.limit - 2)
    + [Attempt(key, p.window, Wrong)] + Repeat(Attempt(key, p.window, Wrong), p.limit - 1)
  }

  lemma {:induction false} WorstCaseIsRecorded(p: Policy, key: string)
    requires p.limit >= 2 && p.window >= 1
    ensures Failures(p, WorstCase(p, key), key) ==
            [0] + Repeat(p.window - 1, p.limit - 2) + [p.window] + Repeat(p.window, p.limit - 1)
  {
    hide Open, Failures;
    FirstIsRecorded(p, key);
    var first := [Attempt(key, 0, Wrong)];
    BurstIsRecorded(p, first, key, p.window - 1, p.limit - 2, 1, 0);
    var second := first + Repeat(Attempt(key, p.window - 1, Wrong), p.limit - 2);
    NextWindowIsRecorded(p, second, key);
    BurstIsRecorded(p, second + [Attempt(key, p.window, Wrong)], key, p.window, p.limit - 1, 1, p.window);
  }

  lemma {:induction false} FirstIsRecorded(p: Policy, key: string)
    requires p.limit >= 2 && p.window >= 1
    ensures Open(p, [Attempt(key, 0, Wrong)], key, p.window - 1, 1, 0) && Failures(p, [Attempt(key, 0, Wrong)], key) == [0]
  {
    var first := [Attempt(key, 0, Wrong)];
    assert first[..0] == [];
    assert RowsAfter(p, first) == map[key := Row(1, 0, None)];
  }

  lemma {:induction false} NextWindowIsRecorded(p: Policy, attempts: seq<Attempt>, key: string)
    requires p.limit >= 2 && p.window >= 1 && Open(p, attempts, key, p.window - 1, p.limit - 1, 0)
    ensures var all := attempts + [Attempt(key, p.window, Wrong)];
            Open(p, all, key, p.window, 1, p.window) && Failures(p, all, key) == Failures(p, attempts, key) + [p.window]
  {
    var all := attempts + [Attempt(key, p.window, Wrong)];
    assert all[..|attempts|] == attempts;
  }

  /** So the bound cannot be improved, for any policy. */
  lemma {:induction false} BoundIsReached(p: Policy, key: string)
    requires p.limit >= 2 && p.window >= 2
    ensures InTimeOrder(WorstCase(p, key))
    ensures |Within(Failures(p, WorstCase(p, key), key), p.window - 1, 2 * p.window - 1)| == 2 * p.limit - 2
  {
    hide Failures;
    WorstCaseIsRecorded(p, key);
    WorstTimes(p, Failures(p, WorstCase(p, key), key));
  }

  lemma WorstTimes(p: Policy, times: seq<int>)
    requires p.limit >= 2 && p.window >= 2
    requires times == [0] + Repeat(p.window - 1, p.limit - 2) + [p.window] + Repeat(p.window, p.limit - 1)
    ensures |Within(times, p.window - 1, 2 * p.window - 1)| == 2 * p.limit - 2
  {
    assert forall i :: 0 < i < |times| ==> p.window - 1 <= times[i] <= p.window;
    assert Within(times, p.window - 1, 2 * p.window - 1) == Range(1, 2 * p.limit - 2);
  }
}
