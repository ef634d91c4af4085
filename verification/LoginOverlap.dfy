/** Overlapping login attempts on one key: an attempt takes the time, checks the row and upserts it in
    three steps, and other attempts come in between. How far the count can go over the limit. */
module LoginOverlap {
  import opened Common
  import opened LoginLimiter

  /** An attempt under way: the time it took at its start, and whether it has passed the check. */
  datatype Login = Login(now: int, passed: bool)

  /** The row of the key, the attempts under way, the clock and the time of the latest upsert. */
  datatype State = State(row: Option<Row>, inFlight: map<nat, Login>, clock: int, latest: int)

  datatype Move = Start(a: nat, now: int) | Read(a: nat) | Record(a: nat) | Succeed(a: nat) | Abandon(a: nat)

  /** How many attempts may be in flight, and whether upserts come in the order of their times. */
  datatype Load = Load(m: nat, ordered: bool)

  predicate Possible(s: State, move: Move, load: Load) {
    match move
    case Start(a, now) => a !in s.inFlight && |s.inFlight| < load.m && s.clock <= now
    case Read(a) => a in s.inFlight && !s.inFlight[a].passed
    case Record(a) => a in s.inFlight && s.inFlight[a].passed && (load.ordered ==> s.latest <= s.inFlight[a].now)
    case Succeed(a) => a in s.inFlight && s.inFlight[a].passed
    case Abandon(a) => a in s.inFlight
  }

  function Next(p: Policy, s: State, move: Move, load: Load): State
    requires Possible(s, move, load)
  {
    match move
    case Start(a, now) => s.(inFlight := s.inFlight[a := Login(now, false)], clock := now)
    case Read(a) =>
      var now := s.inFlight[a].now;
      s.(inFlight := if Blocked(s.row, now) then s.inFlight - {a} else s.inFlight[a := Login(now, true)])
    case Record(a) =>
      var now := s.inFlight[a].now;
      s.(row := Some(Upserted(p, s.row, now)), inFlight := s.inFlight - {a}, latest := now)
    case Succeed(a) => s.(row := None, inFlight := s.inFlight - {a})
    case Abandon(a) => s.(inFlight := s.inFlight - {a})
  }

  /** The attempts with a time before the window of the row. */
  function Stale(s: State): set<nat> {
    if s.row == None then {} else set a | a in s.inFlight && s.inFlight[a].now < s.row.value.windowStart
  }

  /** The attempts that have passed the check with a time inside the window of the row. */
  function Fresh(p: Policy, s: State): set<nat> {
    if s.row == None then {}
    else set a | a in s.inFlight && s.inFlight[a].passed && s.row.value.windowStart <= s.inFlight[a].now < s.row.value.windowStart + p.window
  }

  /** What `stale` attempts with a time before the window can still add: each counts, lifts the block,
      and lets the free places fill with attempts inside the window. */
  function Gain(m: nat, stale: nat): int {
    if stale == 0 then 0 else Gain(m, stale - 1) + 2 + m - stale
  }

  lemma {:induction false} GainGrows(m: nat, few: nat, many: nat)
    requires few <= many <= m
    ensures Gain(m, few) + (many - few) <= Gain(m, many)
    decreases many
  {
    if few < many {
      GainGrows(m, few, many - 1);
    }
  }

  lemma {:induction false} GainClosed(m: nat, stale: nat)
    requires stale <= m
    ensures 2 * Gain(m, stale) == stale * (2 * m + 3 - stale)
  {
    if stale > 0 {
      GainClosed(m, stale - 1);
    }
  }

  /** The block of a full count covers the whole window. */
  predicate Sealed(p: Policy, row: Row) {
    row.blockedUntil.Some? && row.windowStart + p.window <= row.blockedUntil.value
  }

  /** The bound for a row with so many stale and fresh attempts in flight. */
  predicate Fits(p: Policy, row: Row, stale: nat, young: nat, load: Load) {
    if load.ordered then row.failures >= p.limit ==> Sealed(p, row) && row.failures + young <= p.limit - 1 + load.m
    else
      && stale + 1 <= load.m
      && (row.failures >= p.limit ==>
            row.failures + (if Sealed(p, row) then young else load.m - stale) + Gain(load.m, stale) <= p.limit + Gain(load.m, load.m - 1))
  }

  predicate Bounded(p: Policy, s: State, load: Load)
    requires s.row.Some?
  {
    (load.ordered ==> s.row.value.windowStart <= s.latest) && Fits(p, s.row.value, |Stale(s)|, |Fresh(p, s)|, load)
  }

  ghost predicate Inv(p: Policy, s: State, load: Load) {
    && |s.inFlight| <= load.m
    && (forall a :: a in s.inFlight ==> s.inFlight[a].now <= s.clock)
    && (s.row.Some? ==> s.row.value.windowStart <= s.clock && Bounded(p, s, load))
  }

  lemma Smaller(s: set<nat>, t: set<nat>)
    requires s <= t
    ensures |s| <= |t|
  {
    assert t == s + (t - s);
  }

  /** Stale and fresh attempts are different ones of those in flight. */
  lemma Disjoint(p: Policy, s: State)
    ensures |Stale(s)| + |Fresh(p, s)| <= |s.inFlight|
  {
    assert Stale(s) !! Fresh(p, s);
    Smaller(Stale(s) + Fresh(p, s), s.inFlight.Keys);
  }

  // ---- Each move ----

  lemma StartKeepsInv(p: Policy, s: State, a: nat, now: int, load: Load)
    requires p.limit >= 2 && Inv(p, s, load) && Possible(s, Start(a, now), load)
    ensures Inv(p, Next(p, s, Start(a, now), load), load)
  {
    var next := Next(p, s, Start(a, now), load);
    assert next.inFlight.Keys == s.inFlight.Keys + {a};
    assert Stale(next) == Stale(s) && Fresh(p, next) == Fresh(p, s);
    hide Stale, Fresh, Gain;
  }

  /** Fewer attempts in flight on the same row. */
  lemma FewerBounded(p: Policy, s: State, fewer: State, load: Load)
    requires s.row.Some? && fewer.row == s.row && fewer.latest == s.latest && Bounded(p, s, load)
    requires |Stale(fewer)| <= |Stale(s)| && |Fresh(p, fewer)| <= |Fresh(p, s)|
    ensures Bounded(p, fewer, load)
  {
    if !load.ordered && s.row.value.failures >= p.limit {
      GainGrows(load.m, |Stale(fewer)|, |Stale(s)|);
    }
    hide Stale, Fresh, Gain;
  }

  lemma GoneKeepsInv(p: Policy, s: State, a: nat, load: Load)
    requires Inv(p, s, load) && a in s.inFlight
    ensures Inv(p, s.(inFlight := s.inFlight - {a}), load)
  {
    var next := s.(inFlight := s.inFlight - {a});
    assert next.inFlight.Keys == s.inFlight.Keys - {a};
    Smaller(Stale(next), Stale(s));
    Smaller(Fresh(p, next), Fresh(p, s));
    if s.row.Some? {
      FewerBounded(p, s, next, load);
    }
    hide Stale, Fresh, Bounded;
  }

  lemma ReadKeepsInv(p: Policy, s: State, a: nat, load: Load)
    requires Inv(p, s, load) && Possible(s, Read(a), load)
    ensures Inv(p, Next(p, s, Read(a), load), load)
  {
    if Blocked(s.row, s.inFlight[a].now) {
      GoneKeepsInv(p, s, a, load);
    } else {
      var next := Next(p, s, Read(a), load);
      assert next.inFlight.Keys == s.inFlight.Keys;
      assert Stale(next) == Stale(s);
      if s.row.Some? && Sealed(p, s.row.value) {
        assert Fresh(p, next) == Fresh(p, s);
      }
      hide Stale, Fresh, Gain;
    }
  }

  /** A window opens with a count of one. */
  lemma OpenedBounded(p: Policy, s: State, a: nat, load: Load)
    requires p.limit >= 2 && Inv(p, s, load) && Possible(s, Record(a), load)
    requires s.row == None || s.inFlight[a].now - s.row.value.windowStart >= p.window
    ensures Inv(p, Next(p, s, Record(a), load), load)
  {
    var next := Next(p, s, Record(a), load);
    assert next.inFlight.Keys == s.inFlight.Keys - {a};
    Disjoint(p, next);
    hide Stale, Fresh, Gain;
  }

  lemma StaleFits(p: Policy, row: Row, now: int, stale: nat, young: nat, load: Load)
    requires Fits(p, row, stale + 1, young, load) && now < row.windowStart && !load.ordered && now - row.windowStart < p.window && stale + 1 + young <= load.m
    ensures Fits(p, Upserted(p, Some(row), now), stale, young, load)
  {
    GainGrows(load.m, stale + 1, load.m - 1);
    assert Gain(load.m, stale + 1) == Gain(load.m, stale) + 1 + load.m - stale;
    hide Gain;
  }

  lemma FreshFits(p: Policy, row: Row, now: int, stale: nat, young: nat, load: Load)
    requires Fits(p, row, stale, young + 1, load) && row.windowStart <= now < row.windowStart + p.window && stale + young + 1 <= load.m
    ensures Fits(p, Upserted(p, Some(row), now), stale, young, load)
  {
    if !load.ordered {
      GainGrows(load.m, stale, load.m - 1);
    }
    hide Gain;
  }

  lemma CountedStale(p: Policy, s: State, a: nat, load: Load)
    requires Inv(p, s, load) && Possible(s, Record(a), load) && a in Stale(s) && s.inFlight[a].now - s.row.value.windowStart < p.window
    ensures Inv(p, Next(p, s, Record(a), load), load)
  {
    var next := Next(p, s, Record(a), load);
    assert next.inFlight.Keys == s.inFlight.Keys - {a};
    assert Stale(next) == Stale(s) - {a} && Fresh(p, next) == Fresh(p, s);
    Disjoint(p, s);
    StaleFits(p, s.row.value, s.inFlight[a].now, |Stale(next)|, |Fresh(p, s)|, load);
    hide Stale, Fresh, Fits;
  }

  lemma CountedFresh(p: Policy, s: State, a: nat, load: Load)
    requires Inv(p, s, load) && Possible(s, Record(a), load) && a in Fresh(p, s)
    ensures Inv(p, Next(p, s, Record(a), load), load)
  {
    var next := Next(p, s, Record(a), load);
    assert next.inFlight.Keys == s.inFlight.Keys - {a};
    assert Stale(next) == Stale(s) && Fresh(p, next) == Fresh(p, s) - {a};
    Disjoint(p, s);
    FreshFits(p, s.row.value, s.inFlight[a].now, |Stale(s)|, |Fresh(p, next)|, load);
    hide Stale, Fresh, Fits;
  }

  lemma RecordKeepsInv(p: Policy, s: State, a: nat, load: Load)
    requires p.limit >= 2 && Inv(p, s, load) && Possible(s, Record(a), load)
    ensures Inv(p, Next(p, s, Record(a), load), load)
  {
    if s.row == None || s.inFlight[a].now - s.row.value.windowStart >= p.window {
      OpenedBounded(p, s, a, load);
    } else if s.inFlight[a].now < s.row.value.windowStart {
      CountedStale(p, s, a, load);
    } else {
      CountedFresh(p, s, a, load);
    }
  }

  lemma NextKeepsInv(p: Policy, s: State, move: Move, load: Load)
    requires p.limit >= 2 && Inv(p, s, load) && Possible(s, move, load)
    ensures Inv(p, Next(p, s, move, load), load)
  {
    match move
    case Start(a, now) => StartKeepsInv(p, s, a, now, load);
    case Read(a) => ReadKeepsInv(p, s, a, load);
    case Record(a) => RecordKeepsInv(p, s, a, load);
    case Succeed(a) => GoneKeepsInv(p, s, a, load);
    case Abandon(a) => GoneKeepsInv(p, s, a, load);
  }

  // ---- Whole runs ----

  /** The state after these moves, if all of them are possible. */
  function Run(p: Policy, start: State, moves: seq<Move>, load: Load): Option<State>
    decreases |moves|
  {
    if moves == [] then Some(start)
    else
      var before, last := Run(p, start, moves[..|moves| - 1], load), moves[|moves| - 1];
      if before.Some? && Possible(before.value, last, load) then Some(Next(p, before.value, last, load)) else None
  }

  predicate Init(s: State) {
    s.row == None && s.inFlight == map[]
  }

  /** A run from an initial state ends in this state. */
  ghost predicate Reachable(p: Policy, s: State, load: Load) {
    exists start, moves :: Init(start) && Run(p, start, moves, load) == Some(s)
  }

  lemma {:induction false} RunKeepsInv(p: Policy, start: State, moves: seq<Move>, load: Load)
    requires p.limit >= 2 && Init(start) && Run(p, start, moves, load).Some?
    ensures Inv(p, Run(p, start, moves, load).value, load)
    decreases |moves|
  {
    if moves == [] {
    } else {
      RunKeepsInv(p, start, moves[..|moves| - 1], load);
      hide Inv, Possible, Next;
      NextKeepsInv(p, Run(p, start, moves[..|moves| - 1], load).value, moves[|moves| - 1], load);
    }
  }

  /** The highest count: one above the limit for every further attempt in flight if upserts come in
      order, and quadratic in their number if they do not. */
  function Highest(p: Policy, load: Load): int
    requires load.m >= 1
  {
    if load.ordered then p.limit - 1 + load.m else p.limit + (load.m - 1) * (load.m + 4) / 2
  }

  lemma HighestIsGain(p: Policy, load: Load)
    requires load.m >= 1 && !load.ordered
    ensures Highest(p, load) == p.limit + Gain(load.m, load.m - 1)
  {
    GainClosed(load.m, load.m - 1);
  }

  lemma FitsIsHighest(p: Policy, row: Row, stale: nat, young: nat, load: Load)
    requires p.limit >= 2 && load.m >= 1 && Fits(p, row, stale, young, load)
    ensures row.failures <= Highest(p, load)
  {
    if !load.ordered {
      HighestIsGain(p, load);
      GainGrows(load.m, 0, stale);
      GainGrows(load.m, 0, load.m - 1);
    }
    hide Gain;
  }

  /** Over every run, the count stays within this. */
  lemma OverlapBound(p: Policy, s: State, load: Load)
    requires p.limit >= 2 && load.m >= 1 && Reachable(p, s, load)
    ensures s.row.Some? ==> s.row.value.failures <= Highest(p, load)
  {
    var start, moves :| Init(start) && Run(p, start, moves, load) == Some(s);
    RunKeepsInv(p, start, moves, load);
    if s.row.Some? {
      FitsIsHighest(p, s.row.value, |Stale(s)|, |Fresh(p, s)|, load);
    }
    hide Run, Stale, Fresh, Fits, Highest;
  }

  // ---- The bound is reached ----

  lemma ReachNext(p: Policy, s: State, move: Move, load: Load)
    requires Reachable(p, s, load) && Possible(s, move, load)
    ensures Reachable(p, Next(p, s, move, load), load)
  {
    var start, moves :| Init(start) && Run(p, start, moves, load) == Some(s);
    assert (moves + [move])[..|moves|] == moves;
    hide Next, Possible;
    assert Run(p, start, moves + [move], load) == Some(Next(p, s, move, load));
  }

  /** So many attempts of time zero and so many of time `now`, all behind their checks. */
  function Flying(stale: nat, young: nat, now: int): map<nat, Login> {
    var all := Range(0, stale + young);
    map a | a in all :: Login(if a < stale then 0 else now, true)
  }

  lemma FlyingSize(stale: nat, young: nat, now: int)
    ensures |Flying(stale, young, now)| == stale + young && stale + young !in Flying(stale, young, now)
  {
    assert Flying(stale, young, now).Keys == Range(0, stale + young);
    hide Range;
  }

  lemma FlyingMore(stale: nat, young: nat, now: int)
    ensures Flying(stale, young, now)[stale + young := Login(now, true)] == Flying(stale, young + 1, now)
  {
    hide Range;
  }

  lemma FlyingFewer(stale: nat, young: nat, now: int)
    ensures var more := Flying(stale, young + 1, now);
            stale + young in more && more[stale + young] == Login(now, true) && more - {stale + young} == Flying(stale, young, now)
  {
    hide Range;
  }

  lemma NoneYoung(stale: nat, now: int, later: int)
    ensures Flying(stale, 0, now) == Flying(stale, 0, later) && Flying(0, stale, 0) == Flying(stale, 0, now)
  {
    hide Range;
  }

  lemma OneOfZero(stale: nat, now: int)
    ensures Flying(stale, 1, 0) == Flying(stale + 1, 0, now)
  {
    hide Range;
  }

  /** A run ends with this row and these attempts, at a time up to `now`. */
  ghost predicate At(p: Policy, row: Option<Row>, stale: nat, young: nat, now: int, load: Load) {
    exists s :: Reachable(p, s, load) && s.row == row && s.inFlight == Flying(stale, young, now) && s.clock <= now && s.latest <= now
  }

  lemma AtLater(p: Policy, row: Option<Row>, stale: nat, now: int, later: int, load: Load)
    requires At(p, row, stale, 0, now, load) && now <= later
    ensures At(p, row, stale, 0, later, load)
  {
    NoneYoung(stale, now, later);
    hide Reachable, Flying;
  }

  lemma AtFilledOne(p: Policy, row: Option<Row>, stale: nat, young: nat, now: int, load: Load)
    requires At(p, row, stale, young, now, load) && !Blocked(row, now) && stale + young < load.m
    ensures At(p, row, stale, young + 1, now, load)
  {
    hide Flying, Reachable, Blocked;
    var s :| Reachable(p, s, load) && s.row == row && s.inFlight == Flying(stale, young, now) && s.clock <= now && s.latest <= now;
    FlyingSize(stale, young, now);
    FlyingMore(stale, young, now);
    var a := stale + young;
    ReachNext(p, s, Start(a, now), load);
    var started := s.(inFlight := s.inFlight[a := Login(now, false)], clock := now);
    ReachNext(p, started, Read(a), load);
    assert started.inFlight[a := Login(now, true)] == s.inFlight[a := Login(now, true)];
    assert Reachable(p, s.(inFlight := Flying(stale, young + 1, now), clock := now), load);
  }

  lemma AtRecordedOne(p: Policy, row: Option<Row>, stale: nat, young: nat, now: int, load: Load)
    requires At(p, row, stale, young + 1, now, load)
    ensures At(p, Some(Upserted(p, row, now)), stale, young, now, load)
  {
    hide Reachable, Upserted, Blocked, Flying;
    var s :| Reachable(p, s, load) && s.row == row && s.inFlight == Flying(stale, young + 1, now) && s.clock <= now && s.latest <= now;
    FlyingFewer(stale, young, now);
    ReachNext(p, s, Record(stale + young), load);
    assert Reachable(p, State(Some(Upserted(p, row, now)), Flying(stale, young, now), s.clock, now), load);
  }

  /** The row after so many more failures at one time. */
  function Failed(p: Policy, row: Option<Row>, now: int, n: nat): Option<Row> {
    if n == 0 then row else Some(Upserted(p, Failed(p, row, now, n - 1), now))
  }

  lemma {:induction false} FailedCounts(p: Policy, row: Option<Row>, now: int, n: nat)
    requires p.window > 0 && p.limit >= 2 && n > 0 && (row == None || row.value.windowStart <= now < row.value.windowStart + p.window)
    ensures var failures := (if row == None then 0 else row.value.failures) + n;
            Failed(p, row, now, n) == Some(Row(failures, if row == None then now else row.value.windowStart,
                                               if failures >= p.limit then Some(now + p.window) else None))
  {
    if n > 1 {
      FailedCounts(p, row, now, n - 1);
    }
  }

  lemma {:induction false} AtFilled(p: Policy, row: Option<Row>, stale: nat, young: nat, now: int, load: Load)
    requires At(p, row, stale, 0, now, load) && !Blocked(row, now) && stale + young <= load.m
    ensures At(p, row, stale, young, now, load)
  {
    hide At, Blocked;
    if young > 0 {
      AtFilled(p, row, stale, young - 1, now, load);
      AtFilledOne(p, row, stale, young - 1, now, load);
    }
  }

  lemma {:induction false} AtRecorded(p: Policy, row: Option<Row>, stale: nat, young: nat, n: nat, now: int, load: Load)
    requires At(p, row, stale, young, now, load) && n <= young
    ensures At(p, Failed(p, row, now, n), stale, young - n, now, load)
  {
    hide At, Upserted;
    if n > 0 {
      AtRecorded(p, row, stale, young, n - 1, now, load);
      AtRecordedOne(p, Failed(p, row, now, n - 1), stale, young - n, now, load);
    }
  }

  lemma AtStart(p: Policy, stale: nat, load: Load)
    requires stale <= load.m
    ensures At(p, None, stale, 0, 1, load)
  {
    var s := State(None, map[], 0, 0);
    assert Init(s) && Run(p, s, [], load) == Some(s);
    assert Flying(0, 0, 0) == map[];
    assert At(p, None, 0, 0, 0, load);
    AtFilled(p, None, 0, stale, 0, load);
    NoneYoung(stale, 0, 1);
    hide Reachable, Flying;
    assert At(p, None, stale, 0, 0, load);
    AtLater(p, None, stale, 0, 1, load);
  }

  /** Attempts of time zero stay in flight while others fail one by one at time one. */
  lemma {:induction false} AtSerially(p: Policy, stale: nat, n: nat, load: Load)
    requires p.window > 0 && p.limit >= 2 && stale < load.m && n <= p.limit
    ensures At(p, Failed(p, None, 1, n), stale, 0, 1, load)
    decreases n
  {
    hide At, Upserted;
    if n == 0 {
      AtStart(p, stale, load);
    } else {
      AtSerially(p, stale, n - 1, load);
      if n > 1 {
        FailedCounts(p, None, 1, n - 1);
      }
      AtFilledOne(p, Failed(p, None, 1, n - 1), stale, 0, 1, load);
      AtRecordedOne(p, Failed(p, None, 1, n - 1), stale, 0, 1, load);
    }
  }

  /** One upsert out of order lifts the block, and all free places count behind it. */
  lemma AtUnblocked(p: Policy, failures: nat, until: int, stale: nat, load: Load)
    requires p.window > 0 && p.limit >= 2 && !load.ordered && stale < load.m && failures >= p.limit
    requires At(p, Some(Row(failures, 1, Some(until))), stale + 1, 0, p.window, load)
    ensures At(p, Some(Row(failures + 1 + load.m - stale, 1, Some(2 * p.window))), stale, 0, p.window, load)
  {
    hide *;
    var young, lifted := load.m - stale, Some(Row(failures + 1, 1, Some(p.window)));
    LiftedRow(p, failures, until, young);
    AtStaleRecorded(p, Some(Row(failures, 1, Some(until))), stale, p.window, load);
    AtFilled(p, lifted, stale, young, p.window, load);
    AtRecorded(p, lifted, stale, young, young, p.window, load);
  }

  lemma LiftedRow(p: Policy, failures: nat, until: int, young: nat)
    requires p.window > 0 && p.limit >= 2 && failures >= p.limit && young > 0
    ensures var lifted := Some(Row(failures + 1, 1, Some(p.window)));
            && Some(Upserted(p, Some(Row(failures, 1, Some(until))), 0)) == lifted
            && !Blocked(lifted, p.window)
            && Failed(p, lifted, p.window, young) == Some(Row(failures + 1 + young, 1, Some(2 * p.window)))
  {
    FailedCounts(p, Some(Row(failures + 1, 1, Some(p.window))), p.window, young);
    hide Failed;
  }

  lemma AtStaleRecorded(p: Policy, row: Option<Row>, stale: nat, now: int, load: Load)
    requires At(p, row, stale + 1, 0, now, load) && !load.ordered && now >= 0
    ensures At(p, Some(Upserted(p, row, 0)), stale, 0, now, load)
  {
    hide Reachable, Upserted, Blocked, Flying;
    var s :| Reachable(p, s, load) && s.row == row && s.inFlight == Flying(stale + 1, 0, now) && s.clock <= now && s.latest <= now;
    FlyingFewer(stale, 0, 0);
    OneOfZero(stale, now);
    NoneYoung(stale, now, 0);
    ReachNext(p, s, Record(stale), load);
    assert Reachable(p, State(Some(Upserted(p, row, 0)), Flying(stale, 0, now), s.clock, 0), load);
  }

  ghost predicate AtCount(p: Policy, failures: nat, stale: nat, load: Load) {
    exists until :: At(p, Some(Row(failures, 1, Some(until))), stale, 0, p.window, load)
  }

  lemma {:induction false} AtStale(p: Policy, failures: nat, stale: nat, load: Load)
    requires p.window > 0 && p.limit >= 2 && !load.ordered && stale < load.m
    requires failures == p.limit + Gain(load.m, load.m - 1) - Gain(load.m, stale)
    ensures AtCount(p, failures, stale, load)
    decreases load.m - stale
  {
    hide At;
    if stale == load.m - 1 {
      AtSerially(p, stale, p.limit, load);
      FailedCounts(p, None, 1, p.limit);
      AtLater(p, Failed(p, None, 1, p.limit), stale, 1, p.window, load);
    } else {
      GainGrows(load.m, stale + 1, load.m - 1);
      var before := failures - 1 - load.m + stale;
      AtStale(p, before, stale + 1, load);
      var until :| At(p, Some(Row(before, 1, Some(until))), stale + 1, 0, p.window, load);
      AtUnblocked(p, before, until, stale, load);
    }
  }

  ghost predicate Reaches(p: Policy, failures: int, load: Load) {
    exists s :: Reachable(p, s, load) && s.row.Some? && s.row.value.failures == failures
  }

  lemma HighestIsReached(p: Policy, load: Load)
    requires p.window > 0 && p.limit >= 2 && load.m >= 1
    ensures Reaches(p, Highest(p, load), load)
  {
    hide Reachable, Flying;
    if load.ordered {
      var row := Failed(p, None, 1, p.limit - 1);
      AtSerially(p, 0, p.limit - 1, load);
      FailedCounts(p, None, 1, p.limit - 1);
      hide At;
      AtFilled(p, row, 0, load.m, 1, load);
      AtRecorded(p, row, 0, load.m, load.m, 1, load);
      FailedCounts(p, row, 1, load.m);
      AtReaches(p, Failed(p, row, 1, load.m), 0, 1, load);
    } else {
      HighestIsGain(p, load);
      GainGrows(load.m, 0, load.m - 1);
      AtStale(p, p.limit + Gain(load.m, load.m - 1), 0, load);
      hide At;
      var until :| At(p, Some(Row(p.limit + Gain(load.m, load.m - 1), 1, Some(until))), 0, 0, p.window, load);
      AtReaches(p, Some(Row(p.limit + Gain(load.m, load.m - 1), 1, Some(until))), 0, p.window, load);
    }
  }

  lemma AtReaches(p: Policy, row: Option<Row>, stale: nat, now: int, load: Load)
    requires row.Some? && At(p, row, stale, 0, now, load)
    ensures Reaches(p, row.value.failures, load)
  {
    hide Reachable, Flying;
  }

  lemma AboveLimit(p: Policy, load: Load)
    requires load.m >= 1
    ensures Highest(p, load) <= p.limit <==> load.m <= 1
  {
    if !load.ordered {
      HighestIsGain(p, load);
      GainGrows(load.m, 0, load.m - 1);
    }
  }

  /** The bound is reached for every number in flight, so overlapping attempts stay within the limit
      exactly if at most one is in flight at a time. */
  lemma WithinLimitIff(p: Policy, load: Load)
    requires p.window > 0 && p.limit >= 2 && load.m >= 1
    ensures Reaches(p, Highest(p, load), load)
    ensures (forall s :: Reachable(p, s, load) && s.row.Some? ==> s.row.value.failures <= p.limit) <==> load.m <= 1
  {
    HighestIsReached(p, load);
    AboveLimit(p, load);
    hide Reachable, Highest;
    forall s | Reachable(p, s, load) && s.row.Some?
      ensures s.row.value.failures <= Highest(p, load)
    {
      OverlapBound(p, s, load);
    }
  }
}
