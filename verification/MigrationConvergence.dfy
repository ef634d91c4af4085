/** Releases in sequence, with faults anywhere: when they end like one run of the final release on the
    empty database, when an undisturbed rerun always completes, and what blocks it. */
module MigrationConvergence {
  import opened Common
  import opened Migrations
  import opened MigrationTransactions
  import opened MigrationRuns

  /** What applying the first `k` migrations to the empty database gives. */
  ghost function Fold<S>(engine: Engine<S>, initial: S, ms: seq<Migration>, k: nat): Result<Db<S>, int>
    requires k <= |ms|
  {
    ApplyPending(engine, Db(initial, []), ms[..k])
  }

  /** Text `k` is executed for good on the first `k` migrations, but has no row. */
  ghost predicate Ahead<S>(engine: Engine<S>, initial: S, ms: seq<Migration>, k: nat, db: Db<S>) {
    k < |ms| && CommitsUpTo(engine, ms, k) && Fold(engine, initial, ms, k).Ok? && Unrecorded(engine, Fold(engine, initial, ms, k).value, ms[k], db)
  }

  /** Exactly the first `k` migrations are applied, except that text `k` may be ahead. */
  ghost predicate Near<S>(engine: Engine<S>, initial: S, ms: seq<Migration>, k: nat, db: Db<S>) {
    k <= |ms| && (Fold(engine, initial, ms, k) == Ok(db) || Ahead(engine, initial, ms, k, db))
  }

  // ---- The conditions, on the texts alone ----

  /** Text `k` can be executed on what the first `k` migrations give. */
  ghost predicate Executes<S>(engine: Engine<S>, initial: S, ms: seq<Migration>, k: nat)
    requires k < |ms|
  {
    Fold(engine, initial, ms, k).Ok? && engine.execute(Fold(engine, initial, ms, k).value.schema, ms[k].sql).Some?
  }

  ghost function ResultOf<S>(engine: Engine<S>, initial: S, ms: seq<Migration>, k: nat): S
    requires k < |ms| && Executes(engine, initial, ms, k)
  {
    engine.execute(Fold(engine, initial, ms, k).value.schema, ms[k].sql).value
  }

  /** What text `k` does when it is executed again on its own result. */
  ghost function Again<S>(engine: Engine<S>, initial: S, ms: seq<Migration>, k: nat): Option<S>
    requires k < |ms| && Executes(engine, initial, ms, k)
  {
    engine.execute(ResultOf(engine, initial, ms, k), ms[k].sql)
  }

  ghost predicate IdleAgain<S>(engine: Engine<S>, initial: S, ms: seq<Migration>, k: nat)
    requires k < |ms| && Executes(engine, initial, ms, k)
  {
    Again(engine, initial, ms, k) == Some(ResultOf(engine, initial, ms, k))
  }

  /** Every text from the first that commits on is refused or without effect on its own result. */
  ghost predicate Settles<S>(engine: Engine<S>, initial: S, ms: seq<Migration>) {
    forall k: nat :: k < |ms| && CommitsUpTo(engine, ms, k) && Executes(engine, initial, ms, k) ==>
      Again(engine, initial, ms, k) == None || IdleAgain(engine, initial, ms, k)
  }

  /** Every text from the first that commits on can be executed again on its own result, without effect. */
  ghost predicate Resumes<S>(engine: Engine<S>, initial: S, ms: seq<Migration>) {
    forall k: nat :: k < |ms| && CommitsUpTo(engine, ms, k) && Executes(engine, initial, ms, k) ==> IdleAgain(engine, initial, ms, k)
  }

  /** Lists that leave prefixes only are covered. */
  lemma {:induction false} HarmlessSettles<S>(engine: Engine<S>, initial: S, ms: seq<Migration>)
    requires Harmless(engine, initial, ms, false)
    ensures Resumes(engine, initial, ms) && Settles(engine, initial, ms)
  {
    forall k: nat | k < |ms| && CommitsUpTo(engine, ms, k) && Executes(engine, initial, ms, k)
      ensures IdleAgain(engine, initial, ms, k)
    {
      HarmlessAt(engine, Db(initial, []), ms, k, false);
    }
  }

  lemma {:induction false} HarmlessAt<S>(engine: Engine<S>, db: Db<S>, ms: seq<Migration>, k: nat, autocommit: bool)
    requires k < |ms| && Harmless(engine, db.schema, ms, autocommit) && (autocommit || CommitsUpTo(engine, ms, k))
    requires ApplyPending(engine, db, ms[..k]).Ok?
    ensures var schema := ApplyPending(engine, db, ms[..k]).value.schema;
            engine.execute(schema, ms[k].sql) in {None, Some(schema)}
    decreases k
  {
    if k > 0 {
      assert ms[..k][0] == ms[0] && ms[..k][1..] == ms[1..][..k - 1];
      ApplyOneExecutes(engine, db, ms[0]);
      hide ApplyOne;
      if !autocommit && !engine.commits(ms[0].sql) {
        var c :| 0 <= c <= k && c < |ms| && engine.commits(ms[c].sql);
        assert ms[1..][c - 1] == ms[c];
      }
      HarmlessAt(engine, ApplyOne(engine, db, ms[0]).value, ms[1..], k - 1, autocommit || engine.commits(ms[0].sql));
    }
  }

  lemma {:induction false} SameInPrefix<S>(engine: Engine<S>, initial: S, older: seq<Migration>, newer: seq<Migration>, k: nat)
    requires older <= newer && k < |older|
    ensures CommitsUpTo(engine, older, k) <==> CommitsUpTo(engine, newer, k)
    ensures Executes(engine, initial, older, k) <==> Executes(engine, initial, newer, k)
    ensures Executes(engine, initial, older, k) ==>
              Again(engine, initial, older, k) == Again(engine, initial, newer, k)
              && (IdleAgain(engine, initial, older, k) <==> IdleAgain(engine, initial, newer, k))
  {
    assert older[..k] == newer[..k] && older[k] == newer[k];
    assert forall c :: 0 <= c <= k ==> older[c] == newer[c];
    hide ApplyPending;
  }

  /** The conditions of a list hold of its prefixes. */
  lemma {:induction false} ConditionsOfPrefix<S>(engine: Engine<S>, initial: S, older: seq<Migration>, newer: seq<Migration>)
    requires older <= newer
    ensures Settles(engine, initial, newer) ==> Settles(engine, initial, older)
    ensures Resumes(engine, initial, newer) ==> Resumes(engine, initial, older)
  {
    hide CommitsUpTo, Executes, Again, IdleAgain;
    forall k: nat | k < |older|
      ensures CommitsUpTo(engine, older, k) <==> CommitsUpTo(engine, newer, k)
      ensures Executes(engine, initial, older, k) <==> Executes(engine, initial, newer, k)
      ensures Executes(engine, initial, older, k) ==>
                Again(engine, initial, older, k) == Again(engine, initial, newer, k)
                && (IdleAgain(engine, initial, older, k) <==> IdleAgain(engine, initial, newer, k))
    {
      SameInPrefix(engine, initial, older, newer, k);
    }
  }

  lemma {:induction false} NearInExtension<S>(engine: Engine<S>, initial: S, older: seq<Migration>, newer: seq<Migration>, k: nat, db: Db<S>)
    requires older <= newer && Near(engine, initial, older, k, db)
    ensures Near(engine, initial, newer, k, db)
  {
    assert older[..k] == newer[..k];
    hide ApplyPending;
    if Ahead(engine, initial, older, k, db) {
      var c :| 0 <= c <= k && c < |older| && engine.commits(older[c].sql);
      assert newer[c] == older[c];
    }
  }

  // ---- What attempts leave ----

  lemma {:induction false} FoldSnoc<S>(engine: Engine<S>, initial: S, ms: seq<Migration>, k: nat)
    requires k < |ms| && Fold(engine, initial, ms, k).Ok?
    ensures var next := ApplyOne(engine, Fold(engine, initial, ms, k).value, ms[k]);
            if next.Some? then Fold(engine, initial, ms, k + 1) == Ok(next.value) else Fold(engine, initial, ms, k + 1).Err?
  {
    assert ms[..k + 1] == ms[..k] + [ms[k]];
    ApplyConcat(engine, Db(initial, []), ms[..k], [ms[k]]);
    assert [ms[k]][1..] == [];
    hide ApplyOne;
  }

  lemma {:induction false} FoldShape<S>(engine: Engine<S>, initial: S, ms: seq<Migration>, k: nat)
    requires k <= |ms| && Fold(engine, initial, ms, k).Ok?
    ensures Fold(engine, initial, ms, k).value.history == Entries(ms[..k])
    ensures NoRowsUntracked(engine, Fold(engine, initial, ms, k).value)
  {
    ReachedIsFold(engine, initial, Fold(engine, initial, ms, k).value, ms[..k]);
    hide ApplyPending;
  }

  lemma {:induction false} NearShape<S(!new)>(engine: Engine<S>, initial: S, ms: seq<Migration>, k: nat, db: Db<S>)
    requires KeepsTable(engine) && Near(engine, initial, ms, k, db)
    ensures db.history == Entries(ms[..k]) && NoRowsUntracked(engine, db)
  {
    hide ApplyPending;
    FoldShape(engine, initial, ms, k);
  }

  /** One more migration, from an exact or an ahead state. */
  lemma {:induction false} NearStep<S>(engine: Engine<S>, initial: S, ms: seq<Migration>, k: nat, db: Db<S>)
    requires k < |ms| && Near(engine, initial, ms, k, db) && Settles(engine, initial, ms)
    ensures forall after :: Unrecorded(engine, db, ms[k], after) && CommitsUpTo(engine, ms, k) ==> Ahead(engine, initial, ms, k, after)
    ensures forall after :: ApplyOne(engine, db, ms[k]) == Some(after) ==> Fold(engine, initial, ms, k + 1) == Ok(after)
  {
    FoldSnoc(engine, initial, ms, k);
    hide ApplyPending;
    if Fold(engine, initial, ms, k) != Ok(db) {
      assert Executes(engine, initial, ms, k) && db.schema == ResultOf(engine, initial, ms, k);
      AppliedAlike(engine, Fold(engine, initial, ms, k).value, db, ms[k]);
    }
  }

  lemma {:induction false} AppliedAlike<S>(engine: Engine<S>, exact: Db<S>, ahead: Db<S>, m: Migration)
    requires Unrecorded(engine, exact, m, ahead)
    ensures engine.execute(ahead.schema, m.sql) == Some(ahead.schema) ==> ApplyOne(engine, ahead, m) == ApplyOne(engine, exact, m)
    ensures engine.execute(ahead.schema, m.sql) == None ==> ApplyOne(engine, ahead, m) == None
  {
  }

  lemma {:induction false} TransactionStaysNear<S>(engine: Engine<S>, initial: S, ms: seq<Migration>, tx: Tx<S>, cut: Option<Cut>, current: int, i: nat, j: nat)
    returns (k: nat)
    requires Coherent(tx) && i <= |ms| && (!tx.open ==> CommitsUpTo(engine, ms, i)) && Settles(engine, initial, ms)
    requires Near(engine, initial, ms, i, tx.visible) && Near(engine, initial, ms, j, tx.durable)
    ensures Near(engine, initial, ms, k, RunAll(engine, tx, Statements(ms[i..]), cut, current).db)
    decreases |ms| - i
  {
    if i == |ms| {
      assert Statements(ms[i..]) == [];
      var after := RunAll(engine, tx, Statements(ms[i..]), cut, current).db;
      return if after == tx.durable then j else i;
    }
    hide Settles, ApplyOne, Unrecorded, Fold, Ahead;
    assert ms[i..][1..] == ms[i + 1..];
    if engine.commits(ms[i].sql) {
      assert CommitsUpTo(engine, ms, i);
    }
    assert CommitsUpTo(engine, ms, i) ==> CommitsUpTo(engine, ms, i + 1);
    RunStep(engine, tx, ms[i..], cut, current);
    BothSent(engine, tx, ms[i], cut);
    NearStep(engine, initial, ms, i, tx.visible);
    hide RunAll, SentBoth, CommitsUpTo;
    var (next, sent) := SentBoth(engine, tx, ms[i], cut);
    if sent {
      k := TransactionStaysNear(engine, initial, ms, next, Later(Later(cut)), ms[i].version, i + 1, if next.open then j else i + 1);
    } else if next.durable == tx.durable {
      k := j;
    } else {
      k := if Unrecorded(engine, tx.visible, ms[i], next.durable) then i else i + 1;
    }
  }

  lemma {:induction false} AttemptStaysNear<S(!new)>(engine: Engine<S>, initial: S, attempt: Attempt, before: Db<S>, j: nat) returns (k: nat)
    requires KeepsTable(engine) && Settles(engine, initial, Sort(attempt.release)) && Near(engine, initial, Sort(attempt.release), j, before)
    ensures Near(engine, initial, Sort(attempt.release), k, TrackedRun(engine, before, attempt.release, attempt.cut).0)
  {
    hide TrackedRun, Sort, Settles, Admitted, RunAll, Statements, Near;
    NearShape(engine, initial, Sort(attempt.release), j, before);
    RunShape(engine, before, attempt.release, attempt.cut);
    NearBound(engine, initial, Sort(attempt.release), j, before);
    k := j;
    if Admitted(engine, before, attempt.release) {
      MigratedShape(engine, before, attempt.release, attempt.cut);
      if Pending(before, attempt.release) != [] {
        k := TransactionStaysNear(engine, initial, Sort(attempt.release), Begun(before), attempt.cut, 0, j, j);
      }
    }
  }

  lemma {:induction false} NearBound<S>(engine: Engine<S>, initial: S, ms: seq<Migration>, k: nat, db: Db<S>)
    requires Near(engine, initial, ms, k, db)
    ensures k <= |ms|
  {
  }

  /** After every attempt, the database is near a prefix of the sorted release. */
  lemma {:induction false} ChainStaysNear<S(!new)>(engine: Engine<S>, initial: S, attempts: seq<Attempt>) returns (k: nat)
    requires attempts != [] && Chain(attempts) && KeepsTable(engine) && Settles(engine, initial, Sort(attempts[|attempts| - 1].release))
    ensures Near(engine, initial, Sort(attempts[|attempts| - 1].release), k, RunAttempts(engine, Db(initial, []), attempts))
    decreases |attempts|, 1
  {
    var n := |attempts| - 1;
    var sorted := Sort(attempts[n].release);
    var j := BeforeIsNear(engine, initial, attempts);
    hide Settles, Near;
    k := AttemptStaysNear(engine, initial, attempts[n], RunAttempts(engine, Db(initial, []), attempts[..n]), j);
  }

  lemma {:induction false} BeforeIsNear<S(!new)>(engine: Engine<S>, initial: S, attempts: seq<Attempt>) returns (j: nat)
    requires attempts != [] && Chain(attempts) && KeepsTable(engine) && Settles(engine, initial, Sort(attempts[|attempts| - 1].release))
    ensures Near(engine, initial, Sort(attempts[|attempts| - 1].release), j, RunAttempts(engine, Db(initial, []), attempts[..|attempts| - 1]))
    decreases |attempts|, 0
  {
    hide Settles, TrackedRun;
    var n := |attempts| - 1;
    if n == 0 {
      j := 0;
      assert Sort(attempts[0].release)[..0] == [];
    } else {
      assert Extends(attempts[n - 1].release, attempts[n - 1 + 1].release);
      ExtensionSortsBehind(attempts[n - 1].release, attempts[n].release);
      ConditionsOfPrefix(engine, initial, Sort(attempts[n - 1].release), Sort(attempts[n].release));
      hide Near;
      j := ChainStaysNear(engine, initial, attempts[..n]);
      NearInExtension(engine, initial, Sort(attempts[n - 1].release), Sort(attempts[n].release), j, RunAttempts(engine, Db(initial, []), attempts[..n]));
    }
  }

  // ---- Ending like one run ----

  ghost predicate LastSucceeds<S>(engine: Engine<S>, initial: S, attempts: seq<Attempt>)
    requires attempts != []
  {
    var n := |attempts| - 1;
    TrackedRun(engine, RunAttempts(engine, Db(initial, []), attempts[..n]), attempts[n].release, attempts[n].cut).1.Ok?
  }

  /** One undisturbed run on the empty database succeeds, and ends in the same schema and history. */
  ghost predicate EndsLikeOneRun<S>(engine: Engine<S>, initial: S, attempts: seq<Attempt>)
    requires attempts != []
  {
    var one := TrackedRun(engine, Db(initial, []), attempts[|attempts| - 1].release, None);
    one.1.Ok? && one.0 == RunAttempts(engine, Db(initial, []), attempts)
  }

  /** Releases in sequence, with any attempts failing, end where one run of the final release on the
      empty database ends, as soon as the last attempt succeeds. */
  lemma {:induction false} ReleasesEndLikeOneRun<S(!new)>(engine: Engine<S>, initial: S, attempts: seq<Attempt>)
    requires attempts != [] && Chain(attempts) && KeepsTable(engine) && LastSucceeds(engine, initial, attempts)
    requires Settles(engine, initial, Sort(attempts[|attempts| - 1].release))
    ensures EndsLikeOneRun(engine, initial, attempts)
  {
    var n := |attempts| - 1;
    var release, before := attempts[n].release, RunAttempts(engine, Db(initial, []), attempts[..n]);
    var after := RunAttempts(engine, Db(initial, []), attempts);
    var j := BeforeIsNear(engine, initial, attempts);
    NearShape(engine, initial, Sort(release), j, before);
    RunAppliesRest(engine, before, release, attempts[n].cut);
    var k := ChainStaysNear(engine, initial, attempts);
    NearShape(engine, initial, Sort(release), k, after);
    hide TrackedRun, RunAttempts, Settles, ApplyPending, Sort, Usable;
    assert |after.history| == |Sort(release)|;
    assert k == |Sort(release)| && Sort(release)[..k] == Sort(release);
    UncutRunApplies(engine, initial, release);
  }

  /** Every chain of attempts at this release whose last succeeds ends like one run. */
  ghost predicate Converges<S>(engine: Engine<S>, initial: S, release: seq<Migration>) {
    forall attempts: seq<Attempt> :: attempts != [] && Chain(attempts) && attempts[|attempts| - 1].release == release && LastSucceeds(engine, initial, attempts) ==>
      EndsLikeOneRun(engine, initial, attempts)
  }

  /** Every chain of attempts at this release whose last is not disturbed succeeds and ends like one run. */
  ghost predicate Completes<S>(engine: Engine<S>, initial: S, release: seq<Migration>) {
    forall attempts: seq<Attempt> :: attempts != [] && Chain(attempts) && attempts[|attempts| - 1] == Attempt(release, None) ==>
      LastSucceeds(engine, initial, attempts) && EndsLikeOneRun(engine, initial, attempts)
  }

  lemma {:induction false} SortedPrefix(ms: seq<Migration>, n: nat)
    requires Usable(ms) && n <= |Sort(ms)|
    ensures Sort(Sort(ms)[..n]) == Sort(ms)[..n] && Usable(Sort(ms)[..n])
  {
    hide Sort, SequenceError;
    var p := Sort(ms)[..n];
    SortSorts(ms);
    SequenceErrorIff({}, Sort(ms));
    SortSorts(p);
    AscendingIsUnique(p, Sort(p));
    SequenceErrorIff({}, p);
  }

  // ---- A text cut off from its row ----

  /** Text `i`, executed for good, without its row. */
  ghost function AheadOf<S>(engine: Engine<S>, initial: S, ms: seq<Migration>, i: nat): Db<S>
    requires i < |ms| && Executes(engine, initial, ms, i)
  {
    Db(ResultOf(engine, initial, ms, i), Fold(engine, initial, ms, i).value.history)
  }

  lemma {:induction false} CutLeavesAhead<S>(engine: Engine<S>, initial: S, ms: seq<Migration>, i: nat)
    requires Usable(ms) && i < |Sort(ms)| && CommitsUpTo(engine, Sort(ms), i) && Executes(engine, initial, Sort(ms), i)
    ensures TrackedRun(engine, Db(initial, []), ms, Some(Cut(2 * i + 1, false))).0 == AheadOf(engine, initial, Sort(ms), i)
  {
    var db := Db(initial, []);
    assert Sort(ms)[0..] == Sort(ms);
    assert Admitted(engine, db, ms) && Pending(db, ms) == Sort(ms);
    hide TrackedRun, Sort, Usable, Statements, RunAll, ApplyPending;
    MigratedShape(engine, db, ms, Some(Cut(2 * i + 1, false)));
    var c :| 0 <= c <= i && c < |Sort(ms)| && engine.commits(Sort(ms)[c].sql);
    assert CommitsBefore(engine, Begun(db), Sort(ms), i + 1);
    CutBeforeRecord(engine, Begun(db), Sort(ms), i, 0);
  }

  /** A run whose first pending text is refused fails and changes nothing. */
  lemma {:induction false} RefusedTextBlocks<S>(engine: Engine<S>, db: Db<S>, ms: seq<Migration>, cut: Option<Cut>)
    requires NoRowsUntracked(engine, db) && |db.history| < |Sort(ms)|
    requires engine.execute(db.schema, Sort(ms)[|db.history|].sql) == None
    ensures TrackedRun(engine, db, ms, cut).0 == db && TrackedRun(engine, db, ms, cut).1.Err?
  {
    hide TrackedRun, Sort, Admitted, RunAll, Statements;
    RunShape(engine, db, ms, cut);
    if Admitted(engine, db, ms) {
      MigratedShape(engine, db, ms, cut);
      RefusedFirst(engine, db, Pending(db, ms), cut);
    }
  }

  /** Each of these attempts is at a release that continues the list. */
  ghost predicate AtExtensions(ms: seq<Migration>, attempts: seq<Attempt>) {
    forall i :: 0 <= i < |attempts| ==> Sort(ms) <= Sort(attempts[i].release)
  }

  /** Once a text in autocommit mode is cut off from its row, and is refused on its own result, every
      later attempt, at this release or one that continues it, fails and changes nothing. */
  lemma {:induction false} UnrecordedTextBlocks<S(!new)>(engine: Engine<S>, initial: S, ms: seq<Migration>, i: nat, attempts: seq<Attempt>)
    requires KeepsTable(engine) && Usable(ms) && i < |Sort(ms)|
    requires CommitsUpTo(engine, Sort(ms), i) && Executes(engine, initial, Sort(ms), i) && Again(engine, initial, Sort(ms), i) == None
    requires AtExtensions(ms, attempts)
    ensures var after := TrackedRun(engine, Db(initial, []), ms, Some(Cut(2 * i + 1, false))).0;
            && after == AheadOf(engine, initial, Sort(ms), i) && RunAttempts(engine, after, attempts) == after
            && (attempts != [] ==> TrackedRun(engine, after, attempts[|attempts| - 1].release, attempts[|attempts| - 1].cut).1.Err?)
  {
    CutLeavesAhead(engine, initial, ms, i);
    FoldShape(engine, initial, Sort(ms), i);
    StaysBlocked(engine, AheadOf(engine, initial, Sort(ms), i), ms, i, attempts);
  }

  lemma {:induction false} StaysBlocked<S>(engine: Engine<S>, db: Db<S>, ms: seq<Migration>, i: nat, attempts: seq<Attempt>)
    requires NoRowsUntracked(engine, db) && |db.history| == i < |Sort(ms)| && engine.execute(db.schema, Sort(ms)[i].sql) == None
    requires AtExtensions(ms, attempts)
    ensures RunAttempts(engine, db, attempts) == db
    ensures attempts != [] ==> TrackedRun(engine, db, attempts[|attempts| - 1].release, attempts[|attempts| - 1].cut).1.Err?
    decreases |attempts|
  {
    hide TrackedRun, Sort;
    if attempts != [] {
      var last := attempts[|attempts| - 1];
      StaysBlocked(engine, db, ms, i, attempts[..|attempts| - 1]);
      assert Sort(ms) <= Sort(last.release);
      RefusedTextBlocks(engine, db, last.release, last.cut);
    }
  }

  // ---- An undisturbed rerun ----

  lemma {:induction false} HistoryIsRead<S>(engine: Engine<S>, ms: seq<Migration>, k: nat, db: Db<S>)
    requires Usable(ms) && Named(Sort(ms)) && k <= |Sort(ms)| && db.history == Entries(Sort(ms)[..k])
    ensures Admitted(engine, db, ms) && Pending(db, ms) == Sort(ms)[k..]
  {
    hide Sort, HistoryError, PrefixError, SequenceError;
    var sorted := Sort(ms);
    SortSorts(ms);
    SequenceErrorOfPrefix(sorted, k);
    HistoryErrorIff({}, sorted[..k]);
    EntriesOfPrefix(sorted, k);
    PrefixErrorIff(sorted, db.history);
  }

  lemma {:induction false} EntriesOfPrefix(ms: seq<Migration>, k: nat)
    requires k <= |ms|
    ensures Entries(ms[..k]) == Entries(ms)[..k]
  {
  }

  lemma {:induction false} SequenceErrorOfPrefix(ms: seq<Migration>, k: nat)
    requires k <= |ms| && Ordered(ms) && SequenceError({}, ms) == None
    ensures SequenceError({}, ms[..k]) == None
  {
    SequenceErrorIff({}, ms);
    SequenceErrorIff({}, ms[..k]);
  }

  /** Executed again on its own result, with an effect, and then recorded: the run succeeds. */
  lemma {:induction false} TwiceExecuted<S(!new)>(engine: Engine<S>, initial: S, p: seq<Migration>, i: nat)
    requires KeepsTable(engine) && Usable(p) && Sort(p) == p && Named(p) && |p| == i + 1 && Fold(engine, initial, p, i + 1).Ok?
    requires Executes(engine, initial, p, i) && Again(engine, initial, p, i).Some?
    ensures TrackedRun(engine, AheadOf(engine, initial, p, i), p, None).1.Ok?
    ensures TrackedRun(engine, AheadOf(engine, initial, p, i), p, None).0.schema == Again(engine, initial, p, i).value
  {
    var ahead, m := AheadOf(engine, initial, p, i), p[i];
    FoldShape(engine, initial, p, i);
    FoldSnoc(engine, initial, p, i);
    AppliedOverAhead(engine, Fold(engine, initial, p, i).value, ahead, m);
    HistoryIsRead(engine, p, i, ahead);
    assert p[i..] == [m] && [m][1..] == [];
    hide TrackedRun, Sort, Usable, Admitted, Pending, ApplyOne, Fold;
    assert ApplyPending(engine, ahead, [m]) == Ok(ApplyOne(engine, ahead, m).value);
    hide ApplyPending;
    MigratedShape(engine, ahead, p, None);
    UncutApplies(engine, Begun(ahead), [m], 0);
  }

  lemma {:induction false} AppliedOverAhead<S(!new)>(engine: Engine<S>, exact: Db<S>, ahead: Db<S>, m: Migration)
    requires KeepsTable(engine) && Unrecorded(engine, exact, m, ahead) && ApplyOne(engine, exact, m).Some?
    requires engine.execute(ahead.schema, m.sql).Some?
    ensures ApplyOne(engine, ahead, m).Some? && ApplyOne(engine, ahead, m).value.schema == engine.execute(ahead.schema, m.sql).value
    ensures NoRowsUntracked(engine, ahead)
  {
  }

  /** A cut attempt and an undisturbed one at the same release. */
  function CutAndRerun(p: seq<Migration>, i: nat): seq<Attempt> {
    [Attempt(p, Some(Cut(2 * i + 1, false))), Attempt(p, None)]
  }

  lemma {:induction false} CutAndRerunShape<S>(engine: Engine<S>, initial: S, p: seq<Migration>, i: nat)
    requires Usable(p) && Sort(p) == p && i < |p| && CommitsUpTo(engine, p, i) && Executes(engine, initial, p, i)
    ensures var attempts := CutAndRerun(p, i);
            && Chain(attempts)
            && RunAttempts(engine, Db(initial, []), attempts[..1]) == AheadOf(engine, initial, p, i)
            && RunAttempts(engine, Db(initial, []), attempts) == TrackedRun(engine, AheadOf(engine, initial, p, i), p, None).0
            && (LastSucceeds(engine, initial, attempts) <==> TrackedRun(engine, AheadOf(engine, initial, p, i), p, None).1.Ok?)
  {
    CutLeavesAhead(engine, initial, p, i);
    hide TrackedRun, Usable, Fold, Executes, CommitsUpTo;
    var attempts := CutAndRerun(p, i);
    assert ExtendsBy(p, p, []);
    assert attempts[..1] == [attempts[0]] && attempts[..1][..0] == [];
  }

  lemma {:induction false} OneRunShape<S>(engine: Engine<S>, initial: S, p: seq<Migration>)
    requires Usable(p) && Sort(p) == p && Fold(engine, initial, p, |p|).Ok?
    ensures TrackedRun(engine, Db(initial, []), p, None).1.Ok?
    ensures TrackedRun(engine, Db(initial, []), p, None).0 == Fold(engine, initial, p, |p|).value
  {
    assert p[..|p|] == p;
    UncutRunApplies(engine, initial, p);
  }

  /** If text `i` changes its own result, the list up to it does not converge: a run cut off between
      the text and its row, and then repeated, succeeds with another schema. */
  lemma {:induction false} TwiceDiverges<S(!new)>(engine: Engine<S>, initial: S, p: seq<Migration>, i: nat)
    requires KeepsTable(engine) && Usable(p) && Sort(p) == p && Named(p) && |p| == i + 1 && Fold(engine, initial, p, i + 1).Ok?
    requires CommitsUpTo(engine, p, i) && Executes(engine, initial, p, i)
    requires Again(engine, initial, p, i).Some? && !IdleAgain(engine, initial, p, i)
    ensures var attempts := CutAndRerun(p, i);
            Chain(attempts) && LastSucceeds(engine, initial, attempts) && !EndsLikeOneRun(engine, initial, attempts)
  {
    CutAndRerunShape(engine, initial, p, i);
    TwiceExecuted(engine, initial, p, i);
    OneRunShape(engine, initial, p);
    FoldSnoc(engine, initial, p, i);
    ApplyOneExecutes(engine, Fold(engine, initial, p, i).value, p[i]);
    hide TrackedRun, Chain, RunAttempts, LastSucceeds, Usable, Sort, ApplyOne, CommitsUpTo, ApplyPending;
  }

  lemma {:induction false} PartOfFold<S>(engine: Engine<S>, initial: S, ms: seq<Migration>, n: nat)
    requires n <= |ms| && Fold(engine, initial, ms, |ms|).Ok?
    ensures Fold(engine, initial, ms[..n], n).Ok?
  {
    assert ms[..|ms|] == ms && ms[..n][..n] == ms[..n];
    PrefixApplies(engine, Db(initial, []), ms, n);
  }

  /** Text `i` of the sorted list, seen as the last one of the release up to it. */
  lemma {:induction false} UpToText<S>(engine: Engine<S>, initial: S, ms: seq<Migration>, i: nat)
    requires Usable(ms) && Named(Sort(ms)) && i < |Sort(ms)| && Fold(engine, initial, Sort(ms), |Sort(ms)|).Ok?
    ensures var p := Sort(ms)[..i + 1];
            && Usable(p) && Sort(p) == p && Named(p) && |p| == i + 1 && p <= Sort(ms) && Fold(engine, initial, p, i + 1).Ok?
  {
    SortedPrefix(ms, i + 1);
    PartOfFold(engine, initial, Sort(ms), i + 1);
    hide Sort, Usable;
  }

  /** Convergence, exactly: for every prefix of the release, all chains of attempts whose last succeeds
      end like one run, iff every text from the first that commits on is refused or without effect
      when it is executed again on its own result. */
  lemma {:induction false} ConvergesIff<S(!new)>(engine: Engine<S>, initial: S, ms: seq<Migration>)
    requires KeepsTable(engine) && Usable(ms) && Named(Sort(ms)) && Fold(engine, initial, Sort(ms), |Sort(ms)|).Ok?
    ensures (forall n: nat :: n <= |Sort(ms)| ==> Converges(engine, initial, Sort(ms)[..n])) <==> Settles(engine, initial, Sort(ms))
  {
    var sorted := Sort(ms);
    if Settles(engine, initial, sorted) {
      forall n: nat | n <= |sorted|
        ensures Converges(engine, initial, sorted[..n])
      {
        SettlesConverges(engine, initial, ms, n);
      }
    } else {
      var i: nat :| i < |sorted| && CommitsUpTo(engine, sorted, i) && Executes(engine, initial, sorted, i)
                    && Again(engine, initial, sorted, i) != None && !IdleAgain(engine, initial, sorted, i);
      UpToText(engine, initial, ms, i);
      SameInPrefix(engine, initial, sorted[..i + 1], sorted, i);
      hide Sort, Usable, Named, Fold, Again, IdleAgain, Executes, CommitsUpTo, Settles;
      TwiceDiverges(engine, initial, sorted[..i + 1], i);
      assert CutAndRerun(sorted[..i + 1], i)[1].release == sorted[..i + 1];
      assert !Converges(engine, initial, sorted[..i + 1]);
    }
  }

  lemma {:induction false} SettlesConverges<S(!new)>(engine: Engine<S>, initial: S, ms: seq<Migration>, n: nat)
    requires KeepsTable(engine) && Usable(ms) && n <= |Sort(ms)| && Settles(engine, initial, Sort(ms))
    ensures Converges(engine, initial, Sort(ms)[..n])
  {
    var p := Sort(ms)[..n];
    SortedPrefix(ms, n);
    ConditionsOfPrefix(engine, initial, p, Sort(ms));
    hide Sort, Usable, Settles;
    forall attempts: seq<Attempt> | attempts != [] && Chain(attempts) && attempts[|attempts| - 1].release == p && LastSucceeds(engine, initial, attempts)
      ensures EndsLikeOneRun(engine, initial, attempts)
    {
      ReleasesEndLikeOneRun(engine, initial, attempts);
    }
  }

  /** From near a prefix, an undisturbed run succeeds if its texts can be repeated without effect. */
  lemma {:induction false} UncutFromNear<S(!new)>(engine: Engine<S>, initial: S, ms: seq<Migration>, j: nat, before: Db<S>)
    requires KeepsTable(engine) && Usable(ms) && Named(Sort(ms)) && Resumes(engine, initial, Sort(ms))
    requires Near(engine, initial, Sort(ms), j, before) && Fold(engine, initial, Sort(ms), |Sort(ms)|).Ok?
    ensures TrackedRun(engine, before, ms, None).1.Ok?
  {
    var sorted := Sort(ms);
    NearShape(engine, initial, sorted, j, before);
    HistoryIsRead(engine, ms, j, before);
    RestApplies(engine, initial, sorted, j, before);
    hide TrackedRun, Sort, Usable, Admitted, Pending, ApplyPending, Near, Resumes, Fold;
    MigratedShape(engine, before, ms, None);
    UncutApplies(engine, Begun(before), sorted[j..], 0);
  }

  lemma {:induction false} RestApplies<S>(engine: Engine<S>, initial: S, ms: seq<Migration>, j: nat, before: Db<S>)
    requires Resumes(engine, initial, ms) && Near(engine, initial, ms, j, before) && Fold(engine, initial, ms, |ms|).Ok?
    ensures ApplyPending(engine, before, ms[j..]).Ok?
  {
    assert ms[..|ms|] == ms && ms[..j] + ms[j..] == ms;
    PrefixApplies(engine, Db(initial, []), ms, j);
    ApplyConcat(engine, Db(initial, []), ms[..j], ms[j..]);
    if Fold(engine, initial, ms, j) != Ok(before) {
      assert Executes(engine, initial, ms, j) && IdleAgain(engine, initial, ms, j);
      AppliedAlike(engine, Fold(engine, initial, ms, j).value, before, ms[j]);
      hide ApplyOne;
      assert ms[j..][0] == ms[j];
    }
  }

  /** Completion, exactly: for every prefix of the release, an undisturbed run after any attempts
      succeeds and ends like one run, iff every text from the first that commits on can be executed
      again on its own result, without effect. */
  lemma {:induction false} CompletesIff<S(!new)>(engine: Engine<S>, initial: S, ms: seq<Migration>)
    requires KeepsTable(engine) && Usable(ms) && Named(Sort(ms)) && Fold(engine, initial, Sort(ms), |Sort(ms)|).Ok?
    ensures (forall n: nat :: n <= |Sort(ms)| ==> Completes(engine, initial, Sort(ms)[..n])) <==> Resumes(engine, initial, Sort(ms))
  {
    var sorted := Sort(ms);
    if Resumes(engine, initial, sorted) {
      forall n: nat | n <= |sorted|
        ensures Completes(engine, initial, sorted[..n])
      {
        ResumesCompletes(engine, initial, ms, n);
      }
    } else {
      var i: nat :| i < |sorted| && CommitsUpTo(engine, sorted, i) && Executes(engine, initial, sorted, i) && !IdleAgain(engine, initial, sorted, i);
      UpToText(engine, initial, ms, i);
      SameInPrefix(engine, initial, sorted[..i + 1], sorted, i);
      hide Sort, Usable, Named, Resumes;
      NotIdleDoesNotComplete(engine, initial, sorted[..i + 1], i);
    }
  }

  lemma {:induction false} NotIdleDoesNotComplete<S(!new)>(engine: Engine<S>, initial: S, p: seq<Migration>, i: nat)
    requires KeepsTable(engine) && Usable(p) && Sort(p) == p && Named(p) && |p| == i + 1 && Fold(engine, initial, p, i + 1).Ok?
    requires CommitsUpTo(engine, p, i) && Executes(engine, initial, p, i) && !IdleAgain(engine, initial, p, i)
    ensures !Completes(engine, initial, p)
  {
    var attempts := CutAndRerun(p, i);
    CutAndRerunShape(engine, initial, p, i);
    if Again(engine, initial, p, i).Some? {
      TwiceDiverges(engine, initial, p, i);
    } else {
      FoldShape(engine, initial, p, i);
      AheadIsTracked(engine, initial, p, i);
      RefusedTextBlocks(engine, AheadOf(engine, initial, p, i), p, None);
    }
    hide Usable, Sort, Named, Fold, Chain, RunAttempts, LastSucceeds, EndsLikeOneRun, TrackedRun;
    assert attempts[|attempts| - 1] == Attempt(p, None);
  }

  lemma {:induction false} AheadIsTracked<S(!new)>(engine: Engine<S>, initial: S, p: seq<Migration>, i: nat)
    requires KeepsTable(engine) && i < |p| && Executes(engine, initial, p, i)
    ensures NoRowsUntracked(engine, AheadOf(engine, initial, p, i)) && |AheadOf(engine, initial, p, i).history| == i
  {
    FoldShape(engine, initial, p, i);
    hide ApplyPending;
  }

  lemma {:induction false} ResumesCompletes<S(!new)>(engine: Engine<S>, initial: S, ms: seq<Migration>, n: nat)
    requires KeepsTable(engine) && Usable(ms) && Named(Sort(ms)) && n <= |Sort(ms)| && Resumes(engine, initial, Sort(ms))
    requires Fold(engine, initial, Sort(ms), |Sort(ms)|).Ok?
    ensures Completes(engine, initial, Sort(ms)[..n])
  {
    var p := Sort(ms)[..n];
    SortedPrefix(ms, n);
    ConditionsOfPrefix(engine, initial, p, Sort(ms));
    PartOfFold(engine, initial, Sort(ms), n);
    hide Sort, Usable, Settles, Resumes, Fold, Chain, LastSucceeds, EndsLikeOneRun;
    forall attempts: seq<Attempt> | attempts != [] && Chain(attempts) && attempts[|attempts| - 1] == Attempt(p, None)
      ensures LastSucceeds(engine, initial, attempts) && EndsLikeOneRun(engine, initial, attempts)
    {
      UncutCompletes(engine, initial, attempts, p);
    }
  }

  lemma {:induction false} UncutCompletes<S(!new)>(engine: Engine<S>, initial: S, attempts: seq<Attempt>, p: seq<Migration>)
    requires attempts != [] && Chain(attempts) && attempts[|attempts| - 1] == Attempt(p, None)
    requires KeepsTable(engine) && Usable(p) && Sort(p) == p && Named(p) && Resumes(engine, initial, p) && Fold(engine, initial, p, |p|).Ok?
    ensures LastSucceeds(engine, initial, attempts) && EndsLikeOneRun(engine, initial, attempts)
  {
    assert Settles(engine, initial, p);
    hide Sort, Usable, Settles, Resumes, Fold, TrackedRun, RunAttempts, Near, Chain;
    var j := BeforeIsNear(engine, initial, attempts);
    UncutFromNear(engine, initial, p, j, RunAttempts(engine, Db(initial, []), attempts[..|attempts| - 1]));
    hide LastSucceeds;
    ReleasesEndLikeOneRun(engine, initial, attempts);
  }

  // ---- Prefixes, over chains ----

  ghost predicate LeavesPrefixOf<S>(engine: Engine<S>, initial: S, ms: seq<Migration>, after: Db<S>) {
    exists k: nat :: k <= |Sort(ms)| && Reached(engine, initial, after, Sort(ms)[..k])
  }

  ghost predicate ChainsLeavePrefixes<S>(engine: Engine<S>, initial: S, ms: seq<Migration>) {
    forall attempts: seq<Attempt> :: attempts != [] && Chain(attempts) && attempts[|attempts| - 1].release == ms ==>
      LeavesPrefixOf(engine, initial, ms, RunAttempts(engine, Db(initial, []), attempts))
  }

  /** All chains of attempts leave exactly a prefix of the release iff from its first text that commits
      on none changes the schema. */
  lemma {:induction false} ChainsLeavePrefixesIff<S>(engine: Engine<S>, initial: S, ms: seq<Migration>)
    requires Usable(ms) && Fold(engine, initial, Sort(ms), |Sort(ms)|).Ok?
    ensures ChainsLeavePrefixes(engine, initial, ms) <==> Harmless(engine, initial, Sort(ms), false)
  {
    if Harmless(engine, initial, Sort(ms), false) {
      forall attempts: seq<Attempt> | attempts != [] && Chain(attempts) && attempts[|attempts| - 1].release == ms
        ensures LeavesPrefixOf(engine, initial, ms, RunAttempts(engine, Db(initial, []), attempts))
      {
        var k := EveryAttemptLeavesAPrefix(engine, initial, attempts);
      }
    }
    if ChainsLeavePrefixes(engine, initial, ms) && Sort(ms) != [] {
      var db := Db(initial, []);
      assert Sort(ms)[0..] == Sort(ms) == Sort(ms)[..|Sort(ms)|];
      assert Admitted(engine, db, ms) && Pending(db, ms) == Sort(ms);
      hide Sort, Usable, TrackedRun, ApplyPending, Harmless, Admitted;
      forall cut
        ensures RunLeavesPrefix(engine, db, ms, cut)
      {
        SingleAttempt(engine, initial, ms, cut);
        var k: nat :| k <= |Sort(ms)| && Reached(engine, initial, TrackedRun(engine, db, ms, cut).0, Sort(ms)[..k]);
        assert AppliedPrefix(engine, db, Pending(db, ms), k, TrackedRun(engine, db, ms, cut).0);
      }
      RunLeavesPrefixIff(engine, db, ms);
    }
  }

  lemma {:induction false} SingleAttempt<S>(engine: Engine<S>, initial: S, ms: seq<Migration>, cut: Option<Cut>)
    requires Usable(ms) && ChainsLeavePrefixes(engine, initial, ms)
    ensures LeavesPrefixOf(engine, initial, ms, TrackedRun(engine, Db(initial, []), ms, cut).0)
  {
    hide TrackedRun, LeavesPrefixOf, Usable;
    var attempts := [Attempt(ms, cut)];
    assert attempts[..0] == [];
    assert Chain(attempts);
    assert RunAttempts(engine, Db(initial, []), attempts) == TrackedRun(engine, Db(initial, []), ms, cut).0;
  }
}
