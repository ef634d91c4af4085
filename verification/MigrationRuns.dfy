/** Properties of migration runs: independence of the input order, what a failing run leaves,
    sequences of releases with failing attempts, and agreement between the two runners and the
    integrity checker. */
module MigrationRuns {
  import opened Common
  import opened Migrations
  import opened MigrationTransactions

  // ---- Sorting ----

  ghost predicate Ascending(ms: seq<Migration>) {
    forall i, j :: 0 <= i < j < |ms| ==> ms[i].version < ms[j].version
  }

  ghost predicate Ordered(ms: seq<Migration>) {
    forall i, j :: 0 <= i < j < |ms| ==> ms[i].version <= ms[j].version
  }

  lemma {:induction false} InsertSorts(m: Migration, sorted: seq<Migration>)
    requires Ordered(sorted)
    ensures Ordered(Insert(m, sorted)) && multiset(Insert(m, sorted)) == multiset(sorted) + multiset{m}
  {
    if sorted == [] || m.version < sorted[0].version {
      assert [m] + sorted == Insert(m, sorted);
    } else {
      assert sorted == [sorted[0]] + sorted[1..];
      InsertSorts(m, sorted[1..]);
      var rest := Insert(m, sorted[1..]);
      assert Insert(m, sorted) == [sorted[0]] + rest;
      hide Insert;
      forall i | 0 <= i < |rest|
        ensures sorted[0].version <= rest[i].version
      {
        assert rest[i] in multiset(rest);
        assert rest[i] == m || rest[i] in sorted[1..];
      }
    }
  }

  /** The sorted list is ordered by version and is a permutation of the input. */
  lemma {:induction false} SortSorts(ms: seq<Migration>)
    ensures Ordered(Sort(ms)) && multiset(Sort(ms)) == multiset(ms)
  {
    if ms != [] {
      var front, last := ms[..|ms| - 1], ms[|ms| - 1];
      SortSorts(front);
      InsertSorts(last, Sort(front));
      assert ms == front + [last];
    }
  }

  lemma SameLeast(a: seq<Migration>, b: seq<Migration>)
    requires Ascending(a) && Ordered(b) && a != [] && multiset(a) == multiset(b)
    ensures b != [] && a[0] == b[0]
  {
    assert a[0] in multiset(b);
    var j :| 0 <= j < |b| && b[j] == a[0];
    assert b[0] in multiset(a);
    var i :| 0 <= i < |a| && a[i] == b[0];
  }

  lemma TailMultiset(s: seq<Migration>)
    requires s != []
    ensures multiset(s[1..]) == multiset(s) - multiset{s[0]}
  {
    assert s == [s[0]] + s[1..];
  }

  lemma {:induction false} AscendingIsUnique(a: seq<Migration>, b: seq<Migration>)
    requires Ascending(a) && Ordered(b) && multiset(a) == multiset(b)
    ensures a == b
  {
    if a == [] {
      assert |multiset(b)| == 0;
    } else {
      SameLeast(a, b);
      TailMultiset(a);
      TailMultiset(b);
      AscendingIsUnique(a[1..], b[1..]);
      assert a == [a[0]] + a[1..] && b == [b[0]] + b[1..];
    }
  }

  ghost predicate Usable(ms: seq<Migration>) {
    SequenceError({}, Sort(ms)) == None
  }

  lemma {:induction false} SequenceErrorIff(seen: set<int>, ms: seq<Migration>)
    requires Ordered(ms)
    ensures SequenceError(seen, ms) == None <==>
              && Ascending(ms)
              && forall i :: 0 <= i < |ms| ==> ms[i].version >= 1 && ms[i].version !in seen
    decreases |ms|
  {
    if ms != [] {
      SequenceErrorIff(seen + {ms[0].version}, ms[1..]);
      if SequenceError(seen, ms) == None {
        forall i, j | 0 <= i < j < |ms|
          ensures ms[i].version < ms[j].version
        {
          assert ms[1..][j - 1] == ms[j];
          if i > 0 {
            assert ms[1..][i - 1] == ms[i];
          }
        }
      }
    }
  }

  ghost predicate DistinctVersions(ms: seq<Migration>) {
    forall i, j :: 0 <= i < j < |ms| ==> ms[i].version != ms[j].version
  }

  /** What the validation of the runner accepts: positive versions without repetition. */
  lemma UsableIff(ms: seq<Migration>)
    ensures Usable(ms) <==> DistinctVersions(ms) && forall m :: m in ms ==> m.version >= 1
  {
    SortSorts(ms);
    SequenceErrorIff({}, Sort(ms));
    forall m
      ensures m in ms <==> m in Sort(ms)
    {
      assert m in ms <==> m in multiset(ms);
      assert m in Sort(ms) <==> m in multiset(Sort(ms));
    }
    if Ascending(Sort(ms)) {
      DistinctByPermutation(Sort(ms), ms);
    }
    if DistinctVersions(ms) {
      DistinctByPermutation(ms, Sort(ms));
    }
  }

  lemma {:induction false} DistinctByPermutation(a: seq<Migration>, b: seq<Migration>)
    requires DistinctVersions(a) && multiset(a) == multiset(b)
    ensures DistinctVersions(b)
  {
    forall i, j | 0 <= i < j < |b|
      ensures b[i].version != b[j].version
    {
      if b[i].version == b[j].version {
        assert b[i] in multiset(a) && b[j] in multiset(a);
        var p :| 0 <= p < |a| && a[p] == b[i];
        var q :| 0 <= q < |a| && a[q] == b[j];
        assert p == q;
        assert b == b[..i] + [b[i]] + b[i + 1..j] + [b[j]] + b[j + 1..];
        assert multiset(b)[b[i]] >= 2;
        CountOnce(a, p);
      }
    }
  }

  lemma CountOnce(a: seq<Migration>, p: nat)
    requires DistinctVersions(a) && p < |a|
    ensures multiset(a)[a[p]] == 1
  {
    assert a == a[..p] + [a[p]] + a[p + 1..];
    assert a[p] !in a[..p] && a[p] !in a[p + 1..];
  }

  lemma {:induction false} UsableSortsAlike(a: seq<Migration>, b: seq<Migration>)
    requires multiset(a) == multiset(b) && Usable(a)
    ensures Usable(b) && Sort(a) == Sort(b)
  {
    hide Sort, SequenceError;
    SortSorts(a);
    SortSorts(b);
    SequenceErrorIff({}, Sort(a));
    AscendingIsUnique(Sort(a), Sort(b));
  }

  /** A run depends on the set of migrations only: in any input order it does the same to the
      database and returns the same, or refuses the set in both orders. */
  lemma InputOrderDoesNotMatter<S>(engine: Engine<S>, db: Db<S>, a: seq<Migration>, b: seq<Migration>, cut: Option<Cut>)
    requires multiset(a) == multiset(b)
    ensures Usable(a) <==> Usable(b)
    ensures Usable(a) ==> TrackedRun(engine, db, a, cut) == TrackedRun(engine, db, b, cut)
    ensures !Usable(a) ==> TrackedRun(engine, db, a, cut).0 == db && TrackedRun(engine, db, b, cut).0 == db
  {
    hide Sort, SequenceError, ReadHistory, PrefixError, Migrated;
    if Usable(a) {
      UsableSortsAlike(a, b);
    } else if Usable(b) {
      UsableSortsAlike(b, a);
    }
  }

  // ---- Reachable databases ----

  /** `db` is what applying exactly these migrations to the empty database gives: its history is
      their entries, in order, and its schema the fold of their SQL. */
  ghost predicate Reached<S>(engine: Engine<S>, initial: S, db: Db<S>, applied: seq<Migration>) {
    ApplyPending(engine, Db(initial, []), applied) == Ok(db)
  }

  lemma ApplyOneShape<S>(engine: Engine<S>, db: Db<S>, m: Migration)
    requires ApplyOne(engine, db, m).Some?
    ensures var next := ApplyOne(engine, db, m).value;
            next.history == db.history + [EntryOf(m)] && engine.tracked(next.schema) && engine.execute(db.schema, m.sql) == Some(next.schema)
  {
  }

  lemma {:induction false} ApplyAppends<S>(engine: Engine<S>, db: Db<S>, ms: seq<Migration>)
    requires ApplyPending(engine, db, ms).Ok?
    ensures ApplyPending(engine, db, ms).value.history == db.history + Entries(ms)
    ensures if ms == [] then ApplyPending(engine, db, ms).value == db else engine.tracked(ApplyPending(engine, db, ms).value.schema)
    ensures ExecuteAll(engine, db.schema, ms) == Ok(ApplyPending(engine, db, ms).value.schema)
    decreases |ms|
  {
    hide ApplyOne, EntryOf;
    if ms != [] {
      var next := ApplyOne(engine, db, ms[0]).value;
      ApplyOneShape(engine, db, ms[0]);
      ApplyAppends(engine, next, ms[1..]);
      EntriesSplit(ms, 1);
      hide Entries, ExecuteAll, ApplyPending;
      assert Entries(ms)[..1] == [EntryOf(ms[0])];
      assert db.history + ([EntryOf(ms[0])] + Entries(ms[1..])) == (db.history + [EntryOf(ms[0])]) + Entries(ms[1..]);
    }
  }

  /** The history of a reached database is the list that was applied, its schema the fold. */
  lemma {:induction false} ReachedIsFold<S>(engine: Engine<S>, initial: S, db: Db<S>, applied: seq<Migration>)
    requires Reached(engine, initial, db, applied)
    ensures db.history == Entries(applied)
    ensures ExecuteAll(engine, initial, applied) == Ok(db.schema)
    ensures applied != [] ==> engine.tracked(db.schema)
  {
    ApplyAppends(engine, Db(initial, []), applied);
  }

  lemma {:induction false} ApplyConcat<S>(engine: Engine<S>, db: Db<S>, a: seq<Migration>, b: seq<Migration>)
    requires ApplyPending(engine, db, a).Ok?
    ensures ApplyPending(engine, db, a + b) == ApplyPending(engine, ApplyPending(engine, db, a).value, b)
    decreases |a|
  {
    if a == [] {
      assert a + b == b;
    } else {
      var next := ApplyOne(engine, db, a[0]).value;
      assert (a + b)[1..] == a[1..] + b;
      ApplyConcat(engine, next, a[1..], b);
    }
  }

  lemma {:induction false} PrefixErrorIff(ms: seq<Migration>, history: seq<Entry>)
    requires |history| <= |ms|
    ensures PrefixError(ms, history) == None <==> history == Entries(ms)[..|history|]
    decreases |ms|
  {
    if history != [] {
      PrefixErrorIff(ms[1..], history[1..]);
      assert Entries(ms)[..|history|] == [EntryOf(ms[0])] + Entries(ms[1..])[..|history| - 1];
      assert history == [history[0]] + history[1..];
    }
  }

  /** The rows that a run reads: none while the table does not exist. */
  ghost predicate NoRowsUntracked<S>(engine: Engine<S>, db: Db<S>) {
    engine.tracked(db.schema) || db.history == []
  }

  /** What the checks of a run let through. */
  ghost predicate Admitted<S>(engine: Engine<S>, db: Db<S>, ms: seq<Migration>) {
    && Usable(ms) && (engine.tracked(db.schema) ==> HistoryError({}, db.history) == None)
    && |db.history| <= |Sort(ms)| && PrefixError(Sort(ms), db.history) == None
  }

  function Pending<S>(db: Db<S>, ms: seq<Migration>): seq<Migration> {
    if |db.history| <= |Sort(ms)| then Sort(ms)[|db.history|..] else []
  }

  lemma {:induction false} RunShape<S>(engine: Engine<S>, db: Db<S>, ms: seq<Migration>, cut: Option<Cut>)
    requires NoRowsUntracked(engine, db)
    ensures if Admitted(engine, db, ms) then TrackedRun(engine, db, ms, cut) == Migrated(engine, db, Sort(ms), db.history, cut)
            else TrackedRun(engine, db, ms, cut).0 == db && TrackedRun(engine, db, ms, cut).1.Err?
  {
    hide Sort, SequenceError, HistoryError, PrefixError, Migrated;
  }

  lemma {:induction false} AdmittedIsPrefix<S>(engine: Engine<S>, db: Db<S>, ms: seq<Migration>)
    requires Admitted(engine, db, ms)
    ensures |Sort(ms)| == |ms| && |db.history| <= |ms| && db.history == Entries(Sort(ms))[..|db.history|]
    ensures Entries(Sort(ms)) == db.history + Entries(Pending(db, ms))
  {
    hide Sort, SequenceError, HistoryError, PrefixError, Entries;
    SortSorts(ms);
    assert |multiset(Sort(ms))| == |multiset(ms)|;
    PrefixErrorIff(Sort(ms), db.history);
    EntriesSplit(Sort(ms), |db.history|);
  }

  /** The transaction of a run that its checks let through. */
  lemma {:induction false} MigratedShape<S>(engine: Engine<S>, db: Db<S>, ms: seq<Migration>, cut: Option<Cut>)
    requires NoRowsUntracked(engine, db) && Admitted(engine, db, ms)
    ensures var (after, result) := TrackedRun(engine, db, ms, cut);
            var ended := RunAll(engine, Begun(db), Statements(Pending(db, ms)), cut, 0);
            if Pending(db, ms) == [] then after == db && result.Ok? else after == ended.db && (result.Ok? <==> ended.failed == None)
  {
    hide Sort, SequenceError, HistoryError, PrefixError, RunAll, Statements, Versions, EntryVersions, Fingerprints;
    RunShape(engine, db, ms, cut);
  }

  /** A successful run has found a prefix of the sorted list in the history, and has applied and
      reports exactly the rest. */
  lemma {:induction false} RunAppliesRest<S>(engine: Engine<S>, db: Db<S>, ms: seq<Migration>, cut: Option<Cut>)
    requires NoRowsUntracked(engine, db) && TrackedRun(engine, db, ms, cut).1.Ok?
    ensures var (after, result) := TrackedRun(engine, db, ms, cut);
            && Usable(ms) && |db.history| <= |ms| && db.history == Entries(Sort(ms))[..|db.history|]
            && ApplyPending(engine, db, Sort(ms)[|db.history|..]) == Ok(after)
            && after.history == Entries(Sort(ms)) && NoRowsUntracked(engine, after)
            && result.value.fingerprints == Fingerprints(Sort(ms))
            && result.value.run.discovered == Versions(Sort(ms))
            && result.value.run.applied == Versions(Sort(ms)[|db.history|..])
            && result.value.run.skipped == EntryVersions(db.history)
  {
    hide Sort, SequenceError, HistoryError, PrefixError, RunAll, Statements, Versions, EntryVersions, Fingerprints, Entries, ExecuteAll;
    RunShape(engine, db, ms, cut);
    AdmittedIsPrefix(engine, db, ms);
    var pending := Pending(db, ms);
    if pending != [] {
      SuccessApplies(engine, Begun(db), pending, cut, 0);
    }
    ApplyAppends(engine, db, pending);
  }

  // ---- What a failing run leaves ----

  /** If no pending text commits, a run that fails leaves the database as it was, unless only the
      answer to its COMMIT was lost: then everything is applied. */
  lemma {:induction false} FailedRunLeavesAllOrNothing<S>(engine: Engine<S>, db: Db<S>, ms: seq<Migration>, cut: Option<Cut>)
    requires NoRowsUntracked(engine, db) && NoneCommits(engine, Pending(db, ms)) && TrackedRun(engine, db, ms, cut).1.Err?
    ensures var after := TrackedRun(engine, db, ms, cut).0;
            after == db || (Admitted(engine, db, ms) && ApplyPending(engine, db, Pending(db, ms)) == Ok(after))
  {
    hide TrackedRun, Admitted, Pending, RunAll, Statements, ApplyPending;
    RunShape(engine, db, ms, cut);
    if Admitted(engine, db, ms) {
      MigratedShape(engine, db, ms, cut);
      AllOrNothing(engine, Begun(db), Pending(db, ms), cut, 0);
    }
  }

  ghost predicate RunsAtomically<S>(engine: Engine<S>, db: Db<S>, ms: seq<Migration>, full: Db<S>) {
    forall cut :: TrackedRun(engine, db, ms, cut).0 == db || TrackedRun(engine, db, ms, cut).0 == full
  }

  /** That condition is exact: where the pending migrations can be applied, all faults leave all or
      nothing iff no pending text commits (or it is a single text that does nothing). */
  lemma {:induction false} RunIsAtomicIff<S>(engine: Engine<S>, db: Db<S>, ms: seq<Migration>)
    requires NoRowsUntracked(engine, db) && Admitted(engine, db, ms)
    requires Pending(db, ms) != [] && ApplyPending(engine, db, Pending(db, ms)).Ok?
    ensures RunsAtomically(engine, db, ms, ApplyPending(engine, db, Pending(db, ms)).value) <==>
            NoneCommits(engine, Pending(db, ms)) || SingleIdle(engine, db, Pending(db, ms))
  {
    hide TrackedRun, Admitted, Pending, RunAll, Statements, ApplyPending, NoneCommits, SingleIdle;
    var pending := Pending(db, ms);
    var full := ApplyPending(engine, db, pending).value;
    AtomicIff(engine, db, pending);
    forall cut
      ensures AtomicUnder(engine, db, pending, full, cut) <==>
              TrackedRun(engine, db, ms, cut).0 == db || TrackedRun(engine, db, ms, cut).0 == full
    {
      MigratedShape(engine, db, ms, cut);
    }
  }

  ghost predicate RunLeavesPrefix<S>(engine: Engine<S>, db: Db<S>, ms: seq<Migration>, cut: Option<Cut>) {
    exists k: nat :: AppliedPrefix(engine, db, Pending(db, ms), k, TrackedRun(engine, db, ms, cut).0)
  }

  ghost predicate RunsLeavePrefixes<S>(engine: Engine<S>, db: Db<S>, ms: seq<Migration>) {
    forall cut :: RunLeavesPrefix(engine, db, ms, cut)
  }

  lemma {:induction false} RunLeavesPrefixStep<S>(engine: Engine<S>, db: Db<S>, ms: seq<Migration>, cut: Option<Cut>)
    requires NoRowsUntracked(engine, db) && Admitted(engine, db, ms) && Pending(db, ms) != []
    ensures RunLeavesPrefix(engine, db, ms, cut) <==>
            LeavesPrefix(engine, Begun(db), Pending(db, ms), RunAll(engine, Begun(db), Statements(Pending(db, ms)), cut, 0).db)
  {
    hide TrackedRun, Admitted, Pending, RunAll, Statements, AppliedPrefix;
    MigratedShape(engine, db, ms, cut);
    NoPrefixStep(engine, db, Pending(db, ms));
  }

  /** All faults leave exactly a prefix of the pending migrations applied iff from the first pending
      text that commits on, none changes the schema. */
  lemma {:induction false} RunLeavesPrefixIff<S>(engine: Engine<S>, db: Db<S>, ms: seq<Migration>)
    requires NoRowsUntracked(engine, db) && Admitted(engine, db, ms)
    requires Pending(db, ms) != [] && ApplyPending(engine, db, Pending(db, ms)).Ok?
    ensures RunsLeavePrefixes(engine, db, ms) <==> Harmless(engine, db.schema, Pending(db, ms), false)
  {
    hide TrackedRun, Admitted, Pending, RunAll, Statements, ApplyPending, Harmless, LeavesPrefix, RunLeavesPrefix;
    PrefixIff(engine, db, Pending(db, ms));
    forall cut
      ensures RunLeavesPrefix(engine, db, ms, cut) <==>
              LeavesPrefix(engine, Begun(db), Pending(db, ms), RunAll(engine, Begun(db), Statements(Pending(db, ms)), cut, 0).db)
    {
      RunLeavesPrefixStep(engine, db, ms, cut);
    }
  }

  /** A text that is refused after one that committed: the run fails, and all before it is applied. */
  lemma {:induction false} FailedRunKeepsCommitted<S>(engine: Engine<S>, db: Db<S>, ms: seq<Migration>, j: nat, c: nat)
    requires NoRowsUntracked(engine, db) && Admitted(engine, db, ms) && j < c < |Pending(db, ms)|
    requires engine.commits(Pending(db, ms)[j].sql) && ApplyPending(engine, db, Pending(db, ms)[..c]).Ok?
    requires engine.execute(ApplyPending(engine, db, Pending(db, ms)[..c]).value.schema, Pending(db, ms)[c].sql) == None
    ensures TrackedRun(engine, db, ms, None).1.Err?
    ensures TrackedRun(engine, db, ms, None).0 == ApplyPending(engine, db, Pending(db, ms)[..c]).value
    ensures TrackedRun(engine, db, ms, None).0 != db
  {
    var pending := Pending(db, ms);
    MigratedShape(engine, db, ms, None);
    assert CommitsBefore(engine, Begun(db), pending, c);
    FailureAfterCommitKeeps(engine, Begun(db), pending, c, 0);
    assert pending[..c][..c] == pending[..c];
    PrefixApplies(engine, db, pending[..c], c);
    hide TrackedRun, Admitted, Pending, RunAll, Statements, ApplyPending;
  }

  lemma {:induction false} RefusedFirst<S>(engine: Engine<S>, db: Db<S>, ms: seq<Migration>, cut: Option<Cut>)
    requires ms != [] && engine.execute(db.schema, ms[0].sql) == None
    ensures RunAll(engine, Begun(db), Statements(ms), cut, 0) == Ended(db, Some(ms[0].version))
  {
    RunStep(engine, Begun(db), ms, cut, 0);
  }

  lemma {:induction false} EntriesSplit(ms: seq<Migration>, n: nat)
    requires n <= |ms|
    ensures Entries(ms) == Entries(ms)[..n] + Entries(ms[n..])
  {
  }

  // ---- Sequences of releases ----

  /** Everything of `older`, and new migrations with higher versions. */
  ghost predicate Extends(older: seq<Migration>, newer: seq<Migration>) {
    exists added: seq<Migration> :: ExtendsBy(older, newer, added)
  }

  ghost predicate ExtendsBy(older: seq<Migration>, newer: seq<Migration>, added: seq<Migration>) {
    && multiset(newer) == multiset(older) + multiset(added)
    && forall m, n :: m in older && n in added ==> m.version < n.version
  }

  lemma {:induction false} ExtensionSortsBehind(older: seq<Migration>, newer: seq<Migration>)
    requires Extends(older, newer) && Usable(newer)
    ensures Sort(older) <= Sort(newer)
  {
    var added :| ExtendsBy(older, newer, added);
    SortSorts(older);
    SortSorts(newer);
    SortSorts(added);
    SequenceErrorIff({}, Sort(newer));
    var both := Sort(older) + Sort(added);
    forall i, j | 0 <= i < j < |both|
      ensures both[i].version <= both[j].version
    {
      if i < |Sort(older)| <= j {
        assert both[i] in multiset(Sort(older)) && both[j] in multiset(Sort(added));
        assert both[i] in older && both[j] in added;
      }
    }
    AscendingIsUnique(Sort(newer), both);
  }

  datatype Attempt = Attempt(release: seq<Migration>, cut: Option<Cut>)

  ghost predicate Chain(attempts: seq<Attempt>) {
    && (forall i :: 0 <= i < |attempts| ==> Usable(attempts[i].release))
    && forall i :: 0 <= i < |attempts| - 1 ==> Extends(attempts[i].release, attempts[i + 1].release)
  }

  ghost function RunAttempts<S>(engine: Engine<S>, db: Db<S>, attempts: seq<Attempt>): Db<S> {
    if attempts == [] then db
    else
      var last := attempts[|attempts| - 1];
      TrackedRun(engine, RunAttempts(engine, db, attempts[..|attempts| - 1]), last.release, last.cut).0
  }

  /** If from the first text of the final release that commits on none changes the schema, in
      particular if none commits: after every attempt, failed or not, the database holds exactly a
      prefix of the sorted release. */
  lemma {:induction false} EveryAttemptLeavesAPrefix<S>(engine: Engine<S>, initial: S, attempts: seq<Attempt>) returns (k: nat)
    requires attempts != [] && Chain(attempts) && Harmless(engine, initial, Sort(attempts[|attempts| - 1].release), false)
    ensures k <= |Sort(attempts[|attempts| - 1].release)|
    ensures Reached(engine, initial, RunAttempts(engine, Db(initial, []), attempts), Sort(attempts[|attempts| - 1].release)[..k])
    ensures TrackedRun(engine, RunAttempts(engine, Db(initial, []), attempts[..|attempts| - 1]),
                       attempts[|attempts| - 1].release, attempts[|attempts| - 1].cut).1.Ok? ==>
              k == |Sort(attempts[|attempts| - 1].release)|
  {
    hide TrackedRun, Harmless;
    var n := |attempts| - 1;
    var sorted := Sort(attempts[n].release);
    var before := RunAttempts(engine, Db(initial, []), attempts[..n]);
    var j: nat := 0;
    if n > 0 {
      assert Extends(attempts[n - 1].release, attempts[n - 1 + 1].release);
      ExtensionSortsBehind(attempts[n - 1].release, attempts[n].release);
      var older := Sort(attempts[n - 1].release);
      HarmlessPart(engine, Db(initial, []), sorted, |older|, false);
      assert sorted[..|older|] == older;
      j := EveryAttemptLeavesAPrefix(engine, initial, attempts[..n]);
      assert sorted[..j] == older[..j];
    }
    assert Reached(engine, initial, before, sorted[..j]);
    HarmlessPart(engine, Db(initial, []), sorted, j, false);
    k := OneAttempt(engine, initial, before, attempts[n], j);
  }

  lemma OneAttempt<S>(engine: Engine<S>, initial: S, before: Db<S>, attempt: Attempt, j: nat) returns (k: nat)
    requires j <= |Sort(attempt.release)| && Reached(engine, initial, before, Sort(attempt.release)[..j])
    requires Harmless(engine, before.schema, Sort(attempt.release)[j..], false)
    ensures k <= |Sort(attempt.release)|
    ensures Reached(engine, initial, TrackedRun(engine, before, attempt.release, attempt.cut).0, Sort(attempt.release)[..k])
    ensures TrackedRun(engine, before, attempt.release, attempt.cut).1.Ok? ==> k == |Sort(attempt.release)|
  {
    hide TrackedRun, ApplyPending, Sort, Entries, ExecuteAll, AppliedPrefix;
    var sorted := Sort(attempt.release);
    ReachedIsFold(engine, initial, before, sorted[..j]);
    var i := AttemptApplies(engine, before, attempt);
    ReachFurther(engine, initial, before, sorted, j, i, TrackedRun(engine, before, attempt.release, attempt.cut).0);
    k := j + i;
  }

  lemma ReachFurther<S>(engine: Engine<S>, initial: S, before: Db<S>, ms: seq<Migration>, j: nat, i: nat, after: Db<S>)
    requires j <= |ms| && Reached(engine, initial, before, ms[..j]) && AppliedPrefix(engine, before, ms[j..], i, after)
    ensures j + i <= |ms| && Reached(engine, initial, after, ms[..j + i])
  {
    hide ApplyPending;
    ApplyConcat(engine, Db(initial, []), ms[..j], ms[j..][..i]);
    assert ms[..j] + ms[j..][..i] == ms[..j + i];
  }

  lemma AttemptApplies<S>(engine: Engine<S>, before: Db<S>, attempt: Attempt) returns (i: nat)
    requires NoRowsUntracked(engine, before) && |before.history| <= |Sort(attempt.release)|
    requires Harmless(engine, before.schema, Pending(before, attempt.release), false)
    ensures AppliedPrefix(engine, before, Pending(before, attempt.release), i, TrackedRun(engine, before, attempt.release, attempt.cut).0)
    ensures TrackedRun(engine, before, attempt.release, attempt.cut).1.Ok? ==> i == |Pending(before, attempt.release)|
  {
    hide TrackedRun, Sort, Admitted, Usable, Entries, ApplyPending, Versions, EntryVersions, Fingerprints;
    RunShape(engine, before, attempt.release, attempt.cut);
    var pending := Pending(before, attempt.release);
    if TrackedRun(engine, before, attempt.release, attempt.cut).1.Ok? {
      i := |pending|;
      RunAppliesRest(engine, before, attempt.release, attempt.cut);
      assert pending[..i] == pending;
    } else if Admitted(engine, before, attempt.release) {
      i := FailedAttempt(engine, before, attempt);
    } else {
      NoPrefixStep(engine, before, pending);
      i := 0;
    }
  }

  lemma FailedAttempt<S>(engine: Engine<S>, before: Db<S>, attempt: Attempt) returns (i: nat)
    requires NoRowsUntracked(engine, before) && Admitted(engine, before, attempt.release)
    requires Harmless(engine, before.schema, Pending(before, attempt.release), false)
    ensures AppliedPrefix(engine, before, Pending(before, attempt.release), i, TrackedRun(engine, before, attempt.release, attempt.cut).0)
  {
    hide TrackedRun, Pending, Admitted, RunAll, Statements, AppliedPrefix;
    var pending := Pending(before, attempt.release);
    MigratedShape(engine, before, attempt.release, attempt.cut);
    NoPrefixStep(engine, before, pending);
    i := 0;
    if pending != [] {
      HarmlessLeavesPrefix(engine, Begun(before), pending, attempt.cut, 0);
      var after := TrackedRun(engine, before, attempt.release, attempt.cut).0;
      if after != before {
        i :| AppliedPrefix(engine, before, pending, i, after);
      }
    }
  }

  lemma {:induction false} UncutRunApplies<S>(engine: Engine<S>, initial: S, ms: seq<Migration>)
    requires Usable(ms) && ApplyPending(engine, Db(initial, []), Sort(ms)).Ok?
    ensures TrackedRun(engine, Db(initial, []), ms, None).1.Ok?
    ensures TrackedRun(engine, Db(initial, []), ms, None).0 == ApplyPending(engine, Db(initial, []), Sort(ms)).value
  {
    var db := Db(initial, []);
    assert Sort(ms)[0..] == Sort(ms);
    assert Admitted(engine, db, ms) && Pending(db, ms) == Sort(ms);
    hide TrackedRun, Sort, Usable, Statements, RunAll;
    MigratedShape(engine, db, ms, None);
    if Sort(ms) != [] {
      UncutApplies(engine, Begun(db), Sort(ms), 0);
    }
  }

  // ---- What every attempt keeps, whatever its texts commit ----

  /** A text up to `k` commits, so that text `k` may be executed in autocommit mode. */
  ghost predicate CommitsUpTo<S>(engine: Engine<S>, ms: seq<Migration>, k: nat) {
    exists c :: 0 <= c <= k && c < |ms| && engine.commits(ms[c].sql)
  }

  /** The texts that were executed for good: the first `k`, in order, and possibly the next one; only
      a text in autocommit mode is there without its row, and so several times in a row. */
  ghost predicate Stutters<S>(engine: Engine<S>, executed: seq<Migration>, ms: seq<Migration>, k: nat)
    requires k <= |ms|
    decreases |executed|
  {
    if executed == [] then k == 0
    else
      var front, last := executed[..|executed| - 1], executed[|executed| - 1];
      || (k > 0 && last == ms[k - 1] && Stutters(engine, front, ms, k - 1))
      || (k < |ms| && last == ms[k] && CommitsUpTo(engine, ms, k) && Stutters(engine, front, ms, k))
  }

  /** The history is the first `k` migrations, the schema is the result of the texts executed. */
  ghost predicate Kept<S>(engine: Engine<S>, initial: S, ms: seq<Migration>, k: nat, executed: seq<Migration>, db: Db<S>) {
    && k <= |ms| && db.history == Entries(ms)[..k] && Stutters(engine, executed, ms, k)
    && ExecuteAll(engine, initial, executed) == Ok(db.schema) && NoRowsUntracked(engine, db)
  }

  lemma {:induction false} ExecuteSnoc<S>(engine: Engine<S>, schema: S, ms: seq<Migration>, m: Migration)
    requires ExecuteAll(engine, schema, ms).Ok? && engine.execute(ExecuteAll(engine, schema, ms).value, m.sql).Some?
    ensures ExecuteAll(engine, schema, ms + [m]) == Ok(engine.execute(ExecuteAll(engine, schema, ms).value, m.sql).value)
    decreases |ms|
  {
    if ms == [] {
      assert [] + [m] == [m];
    } else {
      assert (ms + [m])[1..] == ms[1..] + [m];
      ExecuteSnoc(engine, engine.execute(schema, ms[0].sql).value, ms[1..], m);
    }
  }

  lemma MigrationKeeps<S(!new)>(engine: Engine<S>, initial: S, ms: seq<Migration>, k: nat, executed: seq<Migration>, db: Db<S>)
    requires KeepsTable(engine) && Kept(engine, initial, ms, k, executed, db) && k < |ms|
    ensures CommitsUpTo(engine, ms, k) ==>
              forall after :: Unrecorded(engine, db, ms[k], after) ==> Kept(engine, initial, ms, k, executed + [ms[k]], after)
    ensures forall after :: ApplyOne(engine, db, ms[k]) == Some(after) ==> Kept(engine, initial, ms, k + 1, executed + [ms[k]], after)
  {
    hide ExecuteAll, Entries;
    if engine.execute(db.schema, ms[k].sql).Some? {
      ExecuteSnoc(engine, initial, executed, ms[k]);
      var all := executed + [ms[k]];
      assert all[..|all| - 1] == executed;
      assert Entries(ms)[..k] + [EntryOf(ms[k])] == Entries(ms)[..k + 1];
    }
  }

  lemma {:induction false} TransactionKeeps<S(!new)>(engine: Engine<S>, initial: S, ms: seq<Migration>, tx: Tx<S>, cut: Option<Cut>, current: int,
                                                     i: nat, seen: seq<Migration>, j: nat, done: seq<Migration>)
    returns (k: nat, executed: seq<Migration>)
    requires KeepsTable(engine) && Coherent(tx) && i <= |ms| && (!tx.open ==> CommitsUpTo(engine, ms, i))
    requires Kept(engine, initial, ms, i, seen, tx.visible) && Kept(engine, initial, ms, j, done, tx.durable)
    ensures Kept(engine, initial, ms, k, executed, RunAll(engine, tx, Statements(ms[i..]), cut, current).db)
    decreases |ms| - i
  {
    hide Kept;
    if i == |ms| {
      assert Statements(ms[i..]) == [];
      if RunAll(engine, tx, Statements(ms[i..]), cut, current).db == tx.durable {
        return j, done;
      }
      return i, seen;
    }
    assert ms[i..][1..] == ms[i + 1..];
    if engine.commits(ms[i].sql) {
      assert CommitsUpTo(engine, ms, i);
    }
    assert CommitsUpTo(engine, ms, i) ==> CommitsUpTo(engine, ms, i + 1);
    RunStep(engine, tx, ms[i..], cut, current);
    BothSent(engine, tx, ms[i], cut);
    MigrationKeeps(engine, initial, ms, i, seen, tx.visible);
    hide RunAll, SentBoth, ApplyOne, Unrecorded;
    var (next, sent) := SentBoth(engine, tx, ms[i], cut);
    var more := seen + [ms[i]];
    if sent {
      if next.open {
        k, executed := TransactionKeeps(engine, initial, ms, next, Later(Later(cut)), ms[i].version, i + 1, more, j, done);
      } else {
        k, executed := TransactionKeeps(engine, initial, ms, next, Later(Later(cut)), ms[i].version, i + 1, more, i + 1, more);
      }
    } else if next.durable == tx.durable {
      return j, done;
    } else if Unrecorded(engine, tx.visible, ms[i], next.durable) {
      return i, more;
    } else {
      return i + 1, more;
    }
  }

  /** Over releases that extend each other, with faults anywhere and texts that commit: after every
      attempt the history is a prefix of the sorted release, and the schema is the result of
      executing its texts in order, where only a text cut off from its row is repeated, or ahead. */
  lemma {:induction false} EveryAttemptKeepsHistory<S(!new)>(engine: Engine<S>, initial: S, attempts: seq<Attempt>)
    returns (k: nat, executed: seq<Migration>)
    requires attempts != [] && Chain(attempts) && KeepsTable(engine)
    ensures Kept(engine, initial, Sort(attempts[|attempts| - 1].release), k, executed, RunAttempts(engine, Db(initial, []), attempts))
    ensures TrackedRun(engine, RunAttempts(engine, Db(initial, []), attempts[..|attempts| - 1]),
                       attempts[|attempts| - 1].release, attempts[|attempts| - 1].cut).1.Ok? ==>
              RunAttempts(engine, Db(initial, []), attempts).history == Entries(Sort(attempts[|attempts| - 1].release))
  {
    hide TrackedRun;
    var n := |attempts| - 1;
    var sorted := Sort(attempts[n].release);
    var before := RunAttempts(engine, Db(initial, []), attempts[..n]);
    var j: nat, done: seq<Migration> := 0, [];
    if n == 0 {
      NothingKept(engine, initial, sorted);
    } else {
      j, done := EveryAttemptKeepsHistory(engine, initial, attempts[..n]);
      assert Extends(attempts[n - 1].release, attempts[n - 1 + 1].release);
      ExtensionSortsBehind(attempts[n - 1].release, attempts[n].release);
      KeptInExtension(engine, initial, Sort(attempts[n - 1].release), sorted, j, done, before);
    }
    k, executed := AttemptKeeps(engine, initial, before, attempts[n], j, done);
  }

  lemma NothingKept<S>(engine: Engine<S>, initial: S, ms: seq<Migration>)
    ensures Kept(engine, initial, ms, 0, [], Db(initial, []))
  {
  }

  lemma {:induction false} StuttersInExtension<S>(engine: Engine<S>, executed: seq<Migration>, older: seq<Migration>, newer: seq<Migration>, k: nat)
    requires older <= newer && k <= |older| && Stutters(engine, executed, older, k)
    ensures Stutters(engine, executed, newer, k)
    decreases |executed|
  {
    if executed != [] {
      var front, last := executed[..|executed| - 1], executed[|executed| - 1];
      if k > 0 && last == older[k - 1] && Stutters(engine, front, older, k - 1) {
        StuttersInExtension(engine, front, older, newer, k - 1);
      } else {
        var c :| 0 <= c <= k && c < |older| && engine.commits(older[c].sql);
        assert newer[c] == older[c];
        StuttersInExtension(engine, front, older, newer, k);
      }
    }
  }

  lemma KeptInExtension<S>(engine: Engine<S>, initial: S, older: seq<Migration>, newer: seq<Migration>, k: nat, executed: seq<Migration>, db: Db<S>)
    requires older <= newer && Kept(engine, initial, older, k, executed, db)
    ensures Kept(engine, initial, newer, k, executed, db)
  {
    StuttersInExtension(engine, executed, older, newer, k);
    hide Stutters, ExecuteAll;
  }

  lemma AttemptKeeps<S(!new)>(engine: Engine<S>, initial: S, before: Db<S>, attempt: Attempt, j: nat, done: seq<Migration>)
    returns (k: nat, executed: seq<Migration>)
    requires KeepsTable(engine) && Kept(engine, initial, Sort(attempt.release), j, done, before)
    ensures Kept(engine, initial, Sort(attempt.release), k, executed, TrackedRun(engine, before, attempt.release, attempt.cut).0)
    ensures TrackedRun(engine, before, attempt.release, attempt.cut).1.Ok? ==>
              TrackedRun(engine, before, attempt.release, attempt.cut).0.history == Entries(Sort(attempt.release))
  {
    hide TrackedRun, Sort, Entries, ExecuteAll, Stutters, Admitted, RunAll, Statements, KeepsTable;
    RunShape(engine, before, attempt.release, attempt.cut);
    k, executed := j, done;
    assert |before.history| == j;
    if TrackedRun(engine, before, attempt.release, attempt.cut).1.Ok? {
      RunAppliesRest(engine, before, attempt.release, attempt.cut);
    }
    if Admitted(engine, before, attempt.release) && Pending(before, attempt.release) != [] {
      MigratedShape(engine, before, attempt.release, attempt.cut);
      k, executed := TransactionKeeps(engine, initial, Sort(attempt.release), Begun(before), attempt.cut, 0, j, done, j, done);
    } else if Admitted(engine, before, attempt.release) {
      MigratedShape(engine, before, attempt.release, attempt.cut);
    }
  }

  // ---- The runners and the checker agree ----

  ghost predicate NonBlank(ms: seq<Migration>) {
    forall i :: 0 <= i < |ms| ==> !Blank(ms[i].name) && !Blank(ms[i].fileName) && !Blank(ms[i].sql)
  }

  lemma {:induction false} SetErrorIff(seen: set<int>, ms: seq<Migration>)
    ensures SetError(seen, ms) == None <==> SequenceError(seen, ms) == None && NonBlank(ms)
    decreases |ms|
  {
    if ms != [] {
      SetErrorIff(seen + {ms[0].version}, ms[1..]);
      assert ms == [ms[0]] + ms[1..];
      if NonBlank(ms[1..]) {
        assert forall i :: 0 < i < |ms| ==> ms[i] == ms[1..][i - 1];
      }
    }
  }

  ghost predicate Named(ms: seq<Migration>) {
    forall i :: 0 <= i < |ms| ==> !Blank(ms[i].name) && !Blank(ms[i].fileName)
  }

  lemma {:induction false} HistoryErrorIff(seen: set<int>, ms: seq<Migration>)
    ensures HistoryError(seen, Entries(ms)) == None <==> SequenceError(seen, ms) == None && Named(ms)
    decreases |ms|
  {
    if ms != [] {
      HistoryErrorIff(seen + {ms[0].version}, ms[1..]);
      assert Entries(ms)[1..] == Entries(ms[1..]);
      if Named(ms[1..]) {
        assert forall i :: 0 < i < |ms| ==> ms[i] == ms[1..][i - 1];
      }
      if Named(ms) {
        assert forall i :: 0 <= i < |ms| - 1 ==> ms[1..][i] == ms[i + 1];
      }
    }
  }

  lemma {:induction false} RecordErrorsIff(ms: seq<Migration>, history: seq<Entry>)
    requires |ms| == |history|
    ensures RecordErrors(ms, history) == None <==> history == Entries(ms)
    decreases |ms|
  {
    if ms != [] {
      RecordErrorsIff(ms[1..], history[1..]);
      assert history == [history[0]] + history[1..];
    }
  }

  /** What the checker accepts: a usable set without blank texts, and its entries as history. */
  lemma {:induction false} InspectIff<S>(engine: Engine<S>, db: Db<S>, ms: seq<Migration>)
    ensures Inspect(engine, db, ms).Ok? <==>
            Usable(ms) && NonBlank(Sort(ms)) && engine.tracked(db.schema) && db.history == Entries(Sort(ms))
    ensures Inspect(engine, db, ms).Ok? ==>
            Inspect(engine, db, ms).value == IntegrityReport(Versions(Sort(ms)), Fingerprints(Sort(ms)))
  {
    SetErrorIff({}, Sort(ms));
    if SetError({}, Sort(ms)) == None {
      HistoryErrorIff({}, Sort(ms));
      if |db.history| == |Sort(ms)| {
        RecordErrorsIff(Sort(ms), db.history);
      }
    }
  }

  /** After a successful run the checker succeeds, with the same versions and fingerprints,
      exactly if no text of the set is blank and the history table exists. */
  lemma {:induction false} RunThenInspect<S>(engine: Engine<S>, db: Db<S>, ms: seq<Migration>, cut: Option<Cut>)
    requires NoRowsUntracked(engine, db) && TrackedRun(engine, db, ms, cut).1.Ok?
    ensures var (after, result) := TrackedRun(engine, db, ms, cut);
            && (Inspect(engine, after, ms).Ok? <==> NonBlank(Sort(ms)) && engine.tracked(after.schema))
            && (ms != [] ==> engine.tracked(after.schema))
            && (Inspect(engine, after, ms).Ok? ==>
                  Inspect(engine, after, ms).value == IntegrityReport(result.value.run.discovered, result.value.fingerprints))
  {
    hide TrackedRun, Inspect, ApplyPending;
    RunAppliesRest(engine, db, ms, cut);
    InspectIff(engine, TrackedRun(engine, db, ms, cut).0, ms);
    SortSorts(ms);
    assert |multiset(Sort(ms))| == |multiset(ms)|;
    assert |Entries(Sort(ms))| == |ms|;
  }

  /** Once the checker succeeds, the next run of the same set applies nothing, whatever fails. */
  lemma InspectThenRun<S>(engine: Engine<S>, db: Db<S>, ms: seq<Migration>, cut: Option<Cut>)
    requires Inspect(engine, db, ms).Ok?
    ensures TrackedRun(engine, db, ms, cut).0 == db
    ensures TrackedRun(engine, db, ms, cut).1.Ok? && TrackedRun(engine, db, ms, cut).1.value.run.applied == []
  {
    InspectIff(engine, db, ms);
    PrefixErrorIff(Sort(ms), db.history);
    SetErrorIff({}, Sort(ms));
    HistoryErrorIff({}, Sort(ms));
    assert Sort(ms)[|db.history|..] == [];
  }

  /** The runner does not look at names before it records them, but it does when it reads them
      back: after a successful run the next one succeeds exactly if no name is blank. */
  lemma {:induction false} RerunSucceedsIff<S>(engine: Engine<S>, db: Db<S>, ms: seq<Migration>, cut: Option<Cut>, nextCut: Option<Cut>)
    requires NoRowsUntracked(engine, db) && ms != [] && TrackedRun(engine, db, ms, cut).1.Ok?
    ensures TrackedRun(engine, TrackedRun(engine, db, ms, cut).0, ms, nextCut).1.Ok? <==> Named(Sort(ms))
  {
    var after := TrackedRun(engine, db, ms, cut).0;
    RunThenInspect(engine, db, ms, cut);
    RunAppliesRest(engine, db, ms, cut);
    RerunOf(engine, after, ms, nextCut);
  }

  lemma {:induction false} RerunOf<S>(engine: Engine<S>, after: Db<S>, ms: seq<Migration>, cut: Option<Cut>)
    requires engine.tracked(after.schema) && Usable(ms) && after.history == Entries(Sort(ms))
    ensures TrackedRun(engine, after, ms, cut).1.Ok? <==> Named(Sort(ms))
  {
    HistoryErrorIff({}, Sort(ms));
    PrefixErrorIff(Sort(ms), after.history);
    assert Sort(ms)[|after.history|..] == [];
  }

  lemma {:induction false} SelectAfterPrefix(ms: seq<Migration>, k: nat, versions: set<int>)
    requires Ascending(ms) && k <= |ms|
    requires forall i :: 0 <= i < |ms| ==> (ms[i].version in versions <==> i < k)
    ensures Select(ms, versions, false) == ms[k..] && Select(ms, versions, true) == ms[..k]
  {
    if ms != [] {
      var rest := ms[1..];
      assert ms == [ms[0]] + rest;
      SelectAfterPrefix(rest, if k == 0 then 0 else k - 1, versions);
    }
  }

  lemma {:induction false} DuplicateErrorIff(seen: set<int>, ms: seq<Migration>)
    requires DistinctVersions(ms) && forall m :: m in ms ==> m.version !in seen
    ensures DuplicateError(seen, ms) == None
    decreases |ms|
  {
    if ms != [] {
      assert forall m :: m in ms[1..] ==> exists i :: 0 < i < |ms| && ms[i] == m;
      DuplicateErrorIff(seen + {ms[0].version}, ms[1..]);
    }
  }

  lemma {:induction false} HistorySelects(ms: seq<Migration>, history: seq<Entry>)
    requires Ascending(ms) && |history| <= |ms| && history == Entries(ms)[..|history|]
    ensures Select(ms, set v | v in EntryVersions(history), false) == ms[|history|..]
    ensures Select(ms, set v | v in EntryVersions(history), true) == ms[..|history|]
    ensures Versions(ms[..|history|]) == EntryVersions(history)
  {
    var versions := set v | v in EntryVersions(history);
    assert forall j :: 0 <= j < |history| ==> EntryVersions(history)[j] == ms[j].version;
    SelectAfterPrefix(ms, |history|, versions);
  }

  lemma {:induction false} PositiveVersionsApply(history: seq<Entry>)
    requires forall i :: 0 <= i < |history| ==> history[i].version >= 1
    ensures AppliedError(EntryVersions(history)) == None
  {
    PositiveApplied(EntryVersions(history));
  }

  lemma {:induction false} PositiveApplied(applied: seq<int>)
    ensures AppliedError(applied) == None <==> forall i :: 0 <= i < |applied| ==> applied[i] >= 1
  {
    if applied != [] {
      PositiveApplied(applied[1..]);
      assert forall i :: 0 < i < |applied| ==> applied[i] == applied[1..][i - 1];
    }
  }

  lemma {:induction false} PlainRunShape<S>(engine: Engine<S>, db: Db<S>, ms: seq<Migration>, applied: seq<int>)
    requires DuplicateError({}, ms) == None && AppliedError(applied) == None
    requires ExecuteAll(engine, db.schema, Select(Sort(ms), set v | v in applied, false)).Ok?
    ensures var pending := Select(Sort(ms), set v | v in applied, false);
            VersionedRun(engine, db, ms, applied, None) ==
            (Db(ExecuteAll(engine, db.schema, pending).value, db.history),
             Ok(RunResult(Versions(Sort(ms)), Versions(pending), Versions(Select(Sort(ms), set v | v in applied, true)))))
  {
    hide Sort, Select, DuplicateError, AppliedError, RunAll;
    var pending := Select(Sort(ms), set v | v in applied, false);
    if pending != [] {
      PlainSuccess(engine, Begun(db), pending, 0);
    }
  }

  /** Told the versions of the history, the plain runner applies exactly the tracked run's pending
      suffix, to the same effect on the schema. */
  lemma PlainRunAppliesPendingSuffix<S>(engine: Engine<S>, db: Db<S>, ms: seq<Migration>, cut: Option<Cut>)
    requires NoRowsUntracked(engine, db) && TrackedRun(engine, db, ms, cut).1.Ok?
    ensures var (after, result) := TrackedRun(engine, db, ms, cut);
            VersionedRun(engine, db, ms, EntryVersions(db.history), None) == (Db(after.schema, db.history), Ok(result.value.run))
  {
    hide TrackedRun, VersionedRun, ApplyPending, Sort, Entries, ExecuteAll, Versions, Fingerprints, Select, DuplicateError, AppliedError;
    var sorted := Sort(ms);
    RunAppliesRest(engine, db, ms, cut);
    SortSorts(ms);
    SequenceErrorIff({}, sorted);
    UsableIff(ms);
    DuplicateErrorIff({}, ms);
    assert |sorted| == |ms| by {
      assert |multiset(sorted)| == |multiset(ms)|;
    }
    HistorySelects(sorted, db.history);
    PositiveVersionsApply(db.history);
    ApplyAppends(engine, db, sorted[|db.history|..]);
    PlainRunShape(engine, db, ms, EntryVersions(db.history));
  }

  /** The plain runner leaves all or nothing if no pending text commits; if one does, a fault right
      after it leaves the texts up to it executed, with an error. */
  lemma {:induction false} PlainRunLeavesAllOrNothing<S>(engine: Engine<S>, db: Db<S>, ms: seq<Migration>, applied: seq<int>, cut: Option<Cut>)
    requires NoneCommits(engine, Select(Sort(ms), set v | v in applied, false))
    ensures var after := VersionedRun(engine, db, ms, applied, cut).0;
            after == db || ExecuteAll(engine, db.schema, Select(Sort(ms), set v | v in applied, false)) == Ok(after.schema)
  {
    hide Sort, Select, DuplicateError, AppliedError, RunAll;
    PlainAllOrNothing(engine, Begun(db), Select(Sort(ms), set v | v in applied, false), cut, 0);
  }

  lemma {:induction false} PlainRunKeepsCommitted<S>(engine: Engine<S>, db: Db<S>, ms: seq<Migration>, applied: seq<int>, c: nat)
    requires DuplicateError({}, ms) == None && AppliedError(applied) == None
    requires c < |Select(Sort(ms), set v | v in applied, false)| && engine.commits(Select(Sort(ms), set v | v in applied, false)[c].sql)
    requires ExecuteAll(engine, db.schema, Select(Sort(ms), set v | v in applied, false)[..c + 1]).Ok?
    ensures VersionedRun(engine, db, ms, applied, Some(Cut(c + 1, false))).1.Err?
    ensures VersionedRun(engine, db, ms, applied, Some(Cut(c + 1, false))).0.schema ==
            ExecuteAll(engine, db.schema, Select(Sort(ms), set v | v in applied, false)[..c + 1]).value
  {
    hide Sort, Select, DuplicateError, AppliedError, RunAll, ExecuteAll;
    var pending := Select(Sort(ms), set v | v in applied, false);
    assert CommitsBefore(engine, Begun(db), pending, c + 1);
    PlainCutAfterCommit(engine, Begun(db), pending, c, 0);
  }
}
