/** The limiter seen from its attempts alone: which of them fail, and how each is answered, told from
    credentials and times without the table. */
module LoginHistory {
  import opened Common
  import opened LoginLimiter

  /** Where the current window of these failures begins: a failure that comes a window or more after
      the beginning of the last one begins the next. */
  function WindowBegin(p: Policy, times: seq<int>): (i: nat)
    requires times != []
    ensures i < |times|
    decreases |times|
  {
    if |times| == 1 then 0
    else
      var last := |times| - 1;
      var i := WindowBegin(p, times[..last]);
      if times[last] >= times[i] + p.window then last else i
  }

  /** The current window holds the limit of failures, and the last is less than one window ago. */
  predicate Locked(p: Policy, times: seq<int>, now: int) {
    times != [] && |times| - WindowBegin(p, times) == p.limit && now < times[|times| - 1] + p.window
  }

  /** The failures on a key since its last success: the attempts made while it is not locked, with
      credentials that are not accepted. */
  function History(p: Policy, attempts: seq<Attempt>, key: string): seq<int>
    decreases |attempts|
  {
    if attempts == [] then []
    else
      var last := attempts[|attempts| - 1];
      var before := History(p, attempts[..|attempts| - 1], key);
      if last.key != key || Locked(p, before, last.now) then before
      else if last.credentials == Accepted then []
      else before + [last.now]
  }

  /** The row tells where the current window begins. */
  ghost predicate RowTells(p: Policy, times: seq<int>, row: Option<Row>) {
    && (times == [] <==> row == None)
    && (times != [] ==>
          && row.value.failures == |times| - WindowBegin(p, times) && row.value.windowStart == times[WindowBegin(p, times)]
          && row.value.failures <= p.limit
          && row.value.blockedUntil == if row.value.failures == p.limit then Some(times[|times| - 1] + p.window) else None)
  }

  lemma LockedIff(p: Policy, times: seq<int>, row: Option<Row>, now: int)
    requires RowTells(p, times, row)
    ensures Blocked(row, now) <==> Locked(p, times, now)
  {
  }

  lemma FailureIsTold(p: Policy, times: seq<int>, row: Option<Row>, now: int)
    requires p.limit >= 2 && RowTells(p, times, row) && !Locked(p, times, now)
    requires InOrderUpTo(times, now)
    ensures RowTells(p, times + [now], Some(Upserted(p, row, now)))
  {
    var more := times + [now];
    assert more[..|times|] == times;
    if times != [] && |times| - WindowBegin(p, times) == p.limit {
      assert times[WindowBegin(p, times)] <= times[|times| - 1];
    }
  }

  ghost predicate InOrderUpTo(times: seq<int>, now: int) {
    forall i, j :: 0 <= i <= j < |times| ==> times[i] <= times[j] <= now
  }

  /** Failures are recorded in the order of their times, up to the last attempt. */
  lemma {:induction false} HistoryIsOrdered(p: Policy, attempts: seq<Attempt>, key: string)
    requires attempts != [] && InTimeOrder(attempts)
    ensures InOrderUpTo(History(p, attempts, key), attempts[|attempts| - 1].now)
    decreases |attempts|
  {
    hide Locked;
    var front := attempts[..|attempts| - 1];
    if front != [] {
      HistoryIsOrdered(p, front, key);
    }
  }

  lemma TellsOn(p: Policy, times: seq<int>, rows: Rows, a: Attempt, key: string)
    requires p.limit >= 2 && RowTells(p, times, Find(rows, key))
    requires InOrderUpTo(times, a.now)
    ensures var after := if a.key != key || Locked(p, times, a.now) then times else if a.credentials == Accepted then [] else times + [a.now];
            RowTells(p, after, Find(After(p, rows, a), key))
  {
    if a.key == key {
      LockedIff(p, times, Find(rows, key), a.now);
      if !Locked(p, times, a.now) && a.credentials != Accepted {
        FailureIsTold(p, times, Find(rows, key), a.now);
      }
    }
    hide RowTells, Locked, Upserted, WindowBegin, Blocked;
    assert RowTells(p, [], None) by { EmptyIsTold(p); }
  }

  lemma EmptyIsTold(p: Policy)
    ensures RowTells(p, [], None)
  {
  }

  lemma StillInOrder(times: seq<int>, now: int, later: int)
    requires InOrderUpTo(times, now) && now <= later
    ensures InOrderUpTo(times, later)
  {
  }

  lemma NothingFound(key: string)
    ensures Find(map[], key) == None
  {
  }

  /** Over every run in time order the row of the table tells the history. */
  lemma {:induction false} RowTellsHistory(p: Policy, attempts: seq<Attempt>, key: string)
    requires p.limit >= 2 && InTimeOrder(attempts)
    ensures RowTells(p, History(p, attempts, key), Find(RowsAfter(p, attempts), key))
    decreases |attempts|
  {
    hide RowTells, Locked, After, Find;
    if attempts == [] {
      EmptyIsTold(p);
      NothingFound(key);
    } else {
      var front, last := attempts[..|attempts| - 1], attempts[|attempts| - 1];
      RowTellsHistory(p, front, key);
      if front != [] {
        HistoryIsOrdered(p, front, key);
      }
      StillInOrder(History(p, front, key), if front == [] then last.now else front[|front| - 1].now, last.now);
      TellsOn(p, History(p, front, key), RowsAfter(p, front), last, key);
    }
  }

  /** How every attempt of a run in time order is answered: it is rate limited iff the failures of the
      current window number the limit and the last is less than one window ago; otherwise its
      credentials alone decide. */
  lemma {:induction false} AnswerIs(p: Policy, attempts: seq<Attempt>)
    requires p.limit >= 2 && InTimeOrder(attempts) && attempts != []
    ensures var last := attempts[|attempts| - 1];
            var locked := Locked(p, History(p, attempts[..|attempts| - 1], last.key), last.now);
            && (LastAnswer(p, attempts) == RateLimited <==> locked)
            && (LastAnswer(p, attempts) == LoggedIn <==> !locked && last.credentials == Accepted)
            && (LastAnswer(p, attempts) == AccountDisabled <==> !locked && last.credentials == OfInactiveUser)
            && (LastAnswer(p, attempts) == InvalidCredentials <==> !locked && last.credentials == Wrong)
  {
    var front, last := attempts[..|attempts| - 1], attempts[|attempts| - 1];
    RowTellsHistory(p, front, last.key);
    LockedIff(p, History(p, front, last.key), Find(RowsAfter(p, front), last.key), last.now);
    hide Locked, Blocked, RowTells, History;
  }

  /** The history is the failures that the theorems about counts speak of. */
  lemma {:induction false} HistoryIsFailures(p: Policy, attempts: seq<Attempt>, key: string)
    requires p.limit >= 2 && InTimeOrder(attempts)
    ensures History(p, attempts, key) == Failures(p, attempts, key)
    decreases |attempts|
  {
    if attempts != [] {
      HistoryIsFailures(p, attempts[..|attempts| - 1], key);
      AnswerIs(p, attempts);
      hide Locked, LastAnswer;
    }
  }
}
