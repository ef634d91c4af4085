/** What the transaction of the migration runners keeps when it fails: all or nothing, and a prefix
    of the list, exactly if no text commits on its own; and what is kept even then. */
module MigrationTransactions {
  import opened Common
  import opened Migrations

  ghost predicate Coherent<S>(tx: Tx<S>) {
    !tx.open ==> tx.visible == tx.durable
  }

  ghost predicate NoneCommits<S>(engine: Engine<S>, ms: seq<Migration>) {
    forall i :: 0 <= i < |ms| ==> !engine.commits(ms[i].sql)
  }

  /** Both statements of one migration. */
  function SentBoth<S>(engine: Engine<S>, tx: Tx<S>, m: Migration, cut: Option<Cut>): (Tx<S>, bool) {
    var (next, done) := Sent(engine, tx, Sql(m), Here(cut));
    if done then Sent(engine, next, Record(m), Here(Later(cut))) else (next, false)
  }

  lemma {:induction false} RunStep<S>(engine: Engine<S>, tx: Tx<S>, ms: seq<Migration>, cut: Option<Cut>, current: int)
    requires ms != []
    ensures RunAll(engine, tx, Statements(ms), cut, current) ==
            var (next, done) := SentBoth(engine, tx, ms[0], cut);
            if done then RunAll(engine, next, Statements(ms[1..]), Later(Later(cut)), ms[0].version)
            else Ended(next.durable, Some(ms[0].version))
  {
    hide Sent, Here, Later;
    StatementsOf(ms);
    var rest := Statements(ms)[1..];
    assert rest[0] == Record(ms[0]) && rest[1..] == Statements(ms[1..]);
    hide Statements;
    var (next, done) := Sent(engine, tx, Sql(ms[0]), Here(cut));
    if done {
      assert RunAll(engine, tx, Statements(ms), cut, current) == RunAll(engine, next, rest, Later(cut), ms[0].version);
    }
  }

  /** The text was executed and is committed, but not recorded. */
  ghost predicate Unrecorded<S>(engine: Engine<S>, before: Db<S>, m: Migration, after: Db<S>) {
    engine.execute(before.schema, m.sql) == Some(after.schema) && after.history == before.history
  }

  lemma BothSent<S>(engine: Engine<S>, tx: Tx<S>, m: Migration, cut: Option<Cut>)
    requires Coherent(tx)
    ensures var (next, done) := SentBoth(engine, tx, m, cut);
            && Coherent(next)
            && (done ==> ApplyOne(engine, tx.visible, m) == Some(next.visible)
                         && next.open == (tx.open && !engine.commits(m.sql)) && (next.open ==> next.durable == tx.durable))
            && (!done && next.durable != tx.durable ==>
                  && (!tx.open || engine.commits(m.sql))
                  && (Unrecorded(engine, tx.visible, m, next.durable) || ApplyOne(engine, tx.visible, m) == Some(next.durable)))
    ensures Here(cut) == None && Here(Later(cut)) == None && ApplyOne(engine, tx.visible, m).Some? ==> SentBoth(engine, tx, m, cut).1
  {
    hide RowRefused;
  }

  // ---- Success ----

  /** A transaction that succeeds has applied exactly the list, whatever its texts commit. */
  lemma {:induction false} SuccessApplies<S>(engine: Engine<S>, tx: Tx<S>, ms: seq<Migration>, cut: Option<Cut>, current: int)
    requires Coherent(tx) && RunAll(engine, tx, Statements(ms), cut, current).failed == None
    ensures ApplyPending(engine, tx.visible, ms) == Ok(RunAll(engine, tx, Statements(ms), cut, current).db)
    decreases |ms|
  {
    hide SentBoth, ApplyOne;
    if ms != [] {
      RunStep(engine, tx, ms, cut, current);
      BothSent(engine, tx, ms[0], cut);
      hide RunAll;
      SuccessApplies(engine, SentBoth(engine, tx, ms[0], cut).0, ms[1..], Later(Later(cut)), ms[0].version);
    }
  }

  /** Without a fault, a list that can be applied is. */
  lemma {:induction false} UncutApplies<S>(engine: Engine<S>, tx: Tx<S>, ms: seq<Migration>, current: int)
    requires Coherent(tx) && ApplyPending(engine, tx.visible, ms).Ok?
    ensures RunAll(engine, tx, Statements(ms), None, current) == Ended(ApplyPending(engine, tx.visible, ms).value, None)
    decreases |ms|
  {
    hide SentBoth, ApplyOne;
    if ms != [] {
      RunStep(engine, tx, ms, None, current);
      BothSent(engine, tx, ms[0], None);
      hide RunAll;
      UncutApplies(engine, SentBoth(engine, tx, ms[0], None).0, ms[1..], ms[0].version);
    }
  }

  // ---- All or nothing ----

  /** If no text commits, a transaction leaves the database as it was or applies the whole list, the
      latter with an error only if the answer to COMMIT was lost. */
  lemma {:induction false} AllOrNothing<S>(engine: Engine<S>, tx: Tx<S>, ms: seq<Migration>, cut: Option<Cut>, current: int)
    requires tx.open && NoneCommits(engine, ms)
    ensures var ended := RunAll(engine, tx, Statements(ms), cut, current);
            ended.db == tx.durable || ApplyPending(engine, tx.visible, ms) == Ok(ended.db)
    decreases |ms|
  {
    hide SentBoth, ApplyOne;
    if ms != [] {
      RunStep(engine, tx, ms, cut, current);
      BothSent(engine, tx, ms[0], cut);
      hide RunAll;
      var (next, done) := SentBoth(engine, tx, ms[0], cut);
      if done {
        AllOrNothing(engine, next, ms[1..], Later(Later(cut)), ms[0].version);
      }
    }
  }

  /** A statement of migration `c` is reached in autocommit mode. */
  ghost predicate CommitsBefore<S>(engine: Engine<S>, tx: Tx<S>, ms: seq<Migration>, c: nat) {
    !tx.open || exists j :: 0 <= j < c && j < |ms| && engine.commits(ms[j].sql)
  }

  lemma CommitsBeforeStep<S>(engine: Engine<S>, tx: Tx<S>, next: Tx<S>, ms: seq<Migration>, c: nat)
    requires CommitsBefore(engine, tx, ms, c) && ms != [] && c > 0 && next.open == (tx.open && !engine.commits(ms[0].sql))
    ensures CommitsBefore(engine, next, ms[1..], c - 1)
  {
    if tx.open && !engine.commits(ms[0].sql) {
      var j :| 0 <= j < c && j < |ms| && engine.commits(ms[j].sql);
      assert ms[1..][j - 1] == ms[j];
    }
  }

  /** A fault before the row of a migration whose text is committed leaves the text without its row. */
  lemma {:induction false} CutBeforeRecord<S>(engine: Engine<S>, tx: Tx<S>, ms: seq<Migration>, c: nat, current: int)
    requires Coherent(tx) && c < |ms| && CommitsBefore(engine, tx, ms, c + 1)
    requires ApplyPending(engine, tx.visible, ms[..c]).Ok?
    requires engine.execute(ApplyPending(engine, tx.visible, ms[..c]).value.schema, ms[c].sql).Some?
    ensures Unrecorded(engine, ApplyPending(engine, tx.visible, ms[..c]).value, ms[c],
                       RunAll(engine, tx, Statements(ms), Some(Cut(2 * c + 1, false)), current).db)
    decreases c
  {
    var cut := Some(Cut(2 * c + 1, false));
    RunStep(engine, tx, ms, cut, current);
    if c > 0 {
      BothSent(engine, tx, ms[0], cut);
      assert ms[..c][0] == ms[0] && ms[..c][1..] == ms[1..][..c - 1];
      var next := SentBoth(engine, tx, ms[0], cut).0;
      hide RunAll, SentBoth, ApplyOne;
      CommitsBeforeStep(engine, tx, next, ms, c + 1);
      CutBeforeRecord(engine, next, ms[1..], c - 1, ms[0].version);
    }
  }

  /** In autocommit mode, a fault before a text leaves everything before it applied. */
  lemma {:induction false} CutBeforeText<S>(engine: Engine<S>, tx: Tx<S>, ms: seq<Migration>, c: nat, current: int)
    requires Coherent(tx) && c < |ms| && CommitsBefore(engine, tx, ms, c) && ApplyPending(engine, tx.visible, ms[..c]).Ok?
    ensures RunAll(engine, tx, Statements(ms), Some(Cut(2 * c, false)), current).db == ApplyPending(engine, tx.visible, ms[..c]).value
    decreases c
  {
    var cut := Some(Cut(2 * c, false));
    RunStep(engine, tx, ms, cut, current);
    if c > 0 {
      BothSent(engine, tx, ms[0], cut);
      assert ms[..c][0] == ms[0] && ms[..c][1..] == ms[1..][..c - 1];
      var next := SentBoth(engine, tx, ms[0], cut).0;
      hide RunAll, SentBoth, ApplyOne;
      CommitsBeforeStep(engine, tx, next, ms, c);
      CutBeforeText(engine, next, ms[1..], c - 1, ms[0].version);
    }
  }

  /** So a text that is refused after one that committed leaves all before it applied, with an error. */
  lemma {:induction false} FailureAfterCommitKeeps<S>(engine: Engine<S>, tx: Tx<S>, ms: seq<Migration>, c: nat, current: int)
    requires Coherent(tx) && c < |ms| && CommitsBefore(engine, tx, ms, c) && ApplyPending(engine, tx.visible, ms[..c]).Ok?
    requires engine.execute(ApplyPending(engine, tx.visible, ms[..c]).value.schema, ms[c].sql) == None
    ensures RunAll(engine, tx, Statements(ms), None, current) ==
            Ended(ApplyPending(engine, tx.visible, ms[..c]).value, Some(ms[c].version))
    decreases c
  {
    RunStep(engine, tx, ms, None, current);
    if c > 0 {
      BothSent(engine, tx, ms[0], None);
      assert ms[..c][0] == ms[0] && ms[..c][1..] == ms[1..][..c - 1];
      var next := SentBoth(engine, tx, ms[0], None).0;
      hide RunAll, SentBoth, ApplyOne;
      CommitsBeforeStep(engine, tx, next, ms, c);
      FailureAfterCommitKeeps(engine, next, ms[1..], c - 1, ms[0].version);
    }
  }

  ghost predicate Atomic<S>(engine: Engine<S>, db: Db<S>, ms: seq<Migration>, full: Db<S>) {
    forall cut :: AtomicUnder(engine, db, ms, full, cut)
  }

  ghost predicate AtomicUnder<S>(engine: Engine<S>, db: Db<S>, ms: seq<Migration>, full: Db<S>, cut: Option<Cut>) {
    var after := RunAll(engine, Begun(db), Statements(ms), cut, 0).db;
    after == db || after == full
  }

  /** A single text that changes nothing: committing it does no harm. */
  ghost predicate SingleIdle<S>(engine: Engine<S>, db: Db<S>, ms: seq<Migration>) {
    |ms| == 1 && engine.execute(db.schema, ms[0].sql) == Some(db.schema)
  }

  /** A transaction over migrations that can be applied leaves all or nothing under every fault iff
      none of their texts commits (or there is only one, and it does nothing). */
  lemma {:induction false} AtomicIff<S>(engine: Engine<S>, db: Db<S>, ms: seq<Migration>)
    requires ms != [] && ApplyPending(engine, db, ms).Ok?
    ensures Atomic(engine, db, ms, ApplyPending(engine, db, ms).value) <==> NoneCommits(engine, ms) || SingleIdle(engine, db, ms)
  {
    var full := ApplyPending(engine, db, ms).value;
    if NoneCommits(engine, ms) {
      forall cut
        ensures AtomicUnder(engine, db, ms, full, cut)
      {
        AllOrNothing(engine, Begun(db), ms, cut, 0);
      }
    } else if SingleIdle(engine, db, ms) {
      forall cut
        ensures AtomicUnder(engine, db, ms, full, cut)
      {
        IdleIsAtomic(engine, db, ms, cut);
      }
    } else {
      var c :| 0 <= c < |ms| && engine.commits(ms[c].sql);
      CommitIsNotAtomic(engine, db, ms, c);
    }
  }

  lemma {:induction false} IdleIsAtomic<S>(engine: Engine<S>, db: Db<S>, ms: seq<Migration>, cut: Option<Cut>)
    requires SingleIdle(engine, db, ms) && ApplyPending(engine, db, ms).Ok?
    ensures AtomicUnder(engine, db, ms, ApplyPending(engine, db, ms).value, cut)
  {
    RunStep(engine, Begun(db), ms, cut, 0);
    BothSent(engine, Begun(db), ms[0], cut);
    assert ms[1..] == [];
    hide SentBoth, ApplyOne;
  }

  /** Applying migrations adds one row each; the prefixes of a list that applies do, too. */
  lemma {:induction false} PrefixApplies<S>(engine: Engine<S>, db: Db<S>, ms: seq<Migration>, n: nat)
    requires n <= |ms| && ApplyPending(engine, db, ms).Ok?
    ensures ApplyPending(engine, db, ms[..n]).Ok?
    ensures |ApplyPending(engine, db, ms[..n]).value.history| == |db.history| + n
    ensures n < |ms| ==> engine.execute(ApplyPending(engine, db, ms[..n]).value.schema, ms[n].sql).Some?
    decreases n
  {
    if n > 0 {
      assert ms[..n][0] == ms[0] && ms[..n][1..] == ms[1..][..n - 1];
      PrefixApplies(engine, ApplyOne(engine, db, ms[0]).value, ms[1..], n - 1);
    }
  }

  lemma {:induction false} CommitIsNotAtomic<S>(engine: Engine<S>, db: Db<S>, ms: seq<Migration>, c: nat)
    requires c < |ms| && engine.commits(ms[c].sql) && !SingleIdle(engine, db, ms) && ApplyPending(engine, db, ms).Ok?
    ensures !Atomic(engine, db, ms, ApplyPending(engine, db, ms).value)
  {
    var full := ApplyPending(engine, db, ms).value;
    PrefixApplies(engine, db, ms, c);
    PrefixApplies(engine, db, ms, |ms|);
    assert ms[..|ms|] == ms;
    hide ApplyPending, RunAll, ApplyOne;
    assert CommitsBefore(engine, Begun(db), ms, c + 1);
    CutBeforeRecord(engine, Begun(db), ms, c, 0);
    var mid := ApplyPending(engine, db, ms[..c]).value;
    if AtomicUnder(engine, db, ms, full, Some(Cut(2 * c + 1, false))) {
      var after := RunAll(engine, Begun(db), Statements(ms), Some(Cut(2 * c + 1, false)), 0).db;
      assert |after.history| < |full.history|;
      assert after == db && c == 0;
      EmptyApplies(engine, db, ms);
      assert |ms| > 1;
      PrefixApplies(engine, db, ms, 1);
      assert CommitsBefore(engine, Begun(db), ms, 1);
      CutBeforeText(engine, Begun(db), ms, 1, 0);
      assert !AtomicUnder(engine, db, ms, full, Some(Cut(2, false)));
    }
  }

  lemma {:induction false} EmptyApplies<S>(engine: Engine<S>, db: Db<S>, ms: seq<Migration>)
    ensures ApplyPending(engine, db, ms[..0]) == Ok(db)
  {
  }

  // ---- A prefix of the list ----

  /** From the first text that commits on, no text changes the schema that it is executed on. */
  ghost predicate Harmless<S>(engine: Engine<S>, schema: S, ms: seq<Migration>, autocommit: bool)
    decreases |ms|
  {
    ms == [] || (
      var commits := autocommit || engine.commits(ms[0].sql);
      match engine.execute(schema, ms[0].sql)
      case None => true
      case Some(next) => (commits ==> next == schema) && Harmless(engine, next, ms[1..], commits))
  }

  lemma {:induction false} HarmlessWithoutCommits<S>(engine: Engine<S>, schema: S, ms: seq<Migration>)
    requires NoneCommits(engine, ms)
    ensures Harmless(engine, schema, ms, false)
    decreases |ms|
  {
    if ms != [] && engine.execute(schema, ms[0].sql).Some? {
      HarmlessWithoutCommits(engine, engine.execute(schema, ms[0].sql).value, ms[1..]);
    }
  }

  lemma {:induction false} HarmlessInTransaction<S>(engine: Engine<S>, schema: S, ms: seq<Migration>)
    requires Harmless(engine, schema, ms, true)
    ensures Harmless(engine, schema, ms, false)
    decreases |ms|
  {
    if ms != [] && engine.execute(schema, ms[0].sql).Some? {
      HarmlessInTransaction(engine, engine.execute(schema, ms[0].sql).value, ms[1..]);
    }
  }

  ghost predicate AppliedPrefix<S>(engine: Engine<S>, db: Db<S>, ms: seq<Migration>, k: nat, after: Db<S>) {
    k <= |ms| && ApplyPending(engine, db, ms[..k]) == Ok(after)
  }

  /** The transaction left what was committed before, or a prefix of the list applied. */
  ghost predicate LeavesPrefix<S>(engine: Engine<S>, tx: Tx<S>, ms: seq<Migration>, after: Db<S>) {
    after == tx.durable || exists k :: AppliedPrefix(engine, tx.visible, ms, k, after)
  }

  lemma PrefixStep<S>(engine: Engine<S>, db: Db<S>, ms: seq<Migration>, k: nat, after: Db<S>)
    requires ms != [] && ApplyOne(engine, db, ms[0]).Some? && AppliedPrefix(engine, ApplyOne(engine, db, ms[0]).value, ms[1..], k, after)
    ensures AppliedPrefix(engine, db, ms, k + 1, after)
  {
    assert ms[..k + 1][0] == ms[0] && ms[..k + 1][1..] == ms[1..][..k];
    hide ApplyOne;
  }

  lemma NoPrefixStep<S>(engine: Engine<S>, db: Db<S>, ms: seq<Migration>)
    ensures AppliedPrefix(engine, db, ms, 0, db)
    ensures ms != [] && ApplyOne(engine, db, ms[0]).Some? ==> AppliedPrefix(engine, db, ms, 1, ApplyOne(engine, db, ms[0]).value)
  {
    if ms != [] && ApplyOne(engine, db, ms[0]).Some? {
      PrefixStepBase(engine, ApplyOne(engine, db, ms[0]).value, ms[1..]);
      PrefixStep(engine, db, ms, 0, ApplyOne(engine, db, ms[0]).value);
    }
  }

  lemma PrefixStepBase<S>(engine: Engine<S>, db: Db<S>, ms: seq<Migration>)
    ensures AppliedPrefix(engine, db, ms, 0, db)
  {
  }

  lemma {:induction false} HarmlessLeavesPrefix<S>(engine: Engine<S>, tx: Tx<S>, ms: seq<Migration>, cut: Option<Cut>, current: int)
    requires Coherent(tx) && Harmless(engine, tx.visible.schema, ms, !tx.open)
    ensures LeavesPrefix(engine, tx, ms, RunAll(engine, tx, Statements(ms), cut, current).db)
    decreases |ms|
  {
    NoPrefixStep(engine, tx.visible, ms);
    if ms != [] {
      RunStep(engine, tx, ms, cut, current);
      BothSent(engine, tx, ms[0], cut);
      ApplyOneExecutes(engine, tx.visible, ms[0]);
      hide RunAll, SentBoth, ApplyOne, AppliedPrefix;
      var (next, done) := SentBoth(engine, tx, ms[0], cut);
      if done {
        HarmlessLeavesPrefix(engine, next, ms[1..], Later(Later(cut)), ms[0].version);
        var after := RunAll(engine, next, Statements(ms[1..]), Later(Later(cut)), ms[0].version).db;
        if k: nat :| AppliedPrefix(engine, next.visible, ms[1..], k, after) {
          PrefixStep(engine, tx.visible, ms, k, after);
        }
      }
    }
  }

  lemma ApplyOneExecutes<S>(engine: Engine<S>, db: Db<S>, m: Migration)
    ensures ApplyOne(engine, db, m).Some? ==>
              engine.execute(db.schema, m.sql) == Some(ApplyOne(engine, db, m).value.schema)
              && |ApplyOne(engine, db, m).value.history| == |db.history| + 1
  {
  }

  ghost predicate AlwaysLeavesPrefix<S>(engine: Engine<S>, tx: Tx<S>, ms: seq<Migration>) {
    forall cut :: LeavesPrefix(engine, tx, ms, RunAll(engine, tx, Statements(ms), cut, 0).db)
  }

  /** The committed state is the visible one or has fewer rows. */
  ghost predicate Behind<S>(tx: Tx<S>) {
    tx.durable == tx.visible || |tx.durable.history| < |tx.visible.history|
  }

  lemma {:induction false} RowsGrow<S>(engine: Engine<S>, tx: Tx<S>, ms: seq<Migration>, cut: Option<Cut>, current: int)
    requires Coherent(tx)
    ensures var after := RunAll(engine, tx, Statements(ms), cut, current).db;
            after == tx.durable || |tx.visible.history| <= |after.history|
    decreases |ms|
  {
    if ms != [] {
      RunStep(engine, tx, ms, cut, current);
      BothSent(engine, tx, ms[0], cut);
      ApplyOneExecutes(engine, tx.visible, ms[0]);
      hide RunAll, SentBoth, ApplyOne;
      var (next, done) := SentBoth(engine, tx, ms[0], cut);
      if done {
        RowsGrow(engine, next, ms[1..], Later(Later(cut)), ms[0].version);
      }
    }
  }

  lemma {:induction false} CurrentIsOnlyReported<S>(engine: Engine<S>, tx: Tx<S>, statements: seq<Statement>, cut: Option<Cut>, one: int, other: int)
    ensures RunAll(engine, tx, statements, cut, one).db == RunAll(engine, tx, statements, cut, other).db
  {
    hide Sent;
  }

  function Shifted(cut: Option<Cut>): Option<Cut> {
    if cut.Some? then Some(Cut(cut.value.at + 2, cut.value.applied)) else None
  }

  /** A fault after the first migration is a fault of the rest. */
  lemma {:induction false} RestOfRun<S>(engine: Engine<S>, tx: Tx<S>, ms: seq<Migration>, cut: Option<Cut>, current: int)
    requires Coherent(tx) && ms != [] && ApplyOne(engine, tx.visible, ms[0]).Some?
    ensures var next := SentBoth(engine, tx, ms[0], None).0;
            && Coherent(next) && next.open == (tx.open && !engine.commits(ms[0].sql)) && (next.open ==> next.durable == tx.durable)
            && ApplyOne(engine, tx.visible, ms[0]) == Some(next.visible)
            && RunAll(engine, tx, Statements(ms), Shifted(cut), current).db == RunAll(engine, next, Statements(ms[1..]), cut, current).db
  {
    var shifted := Shifted(cut);
    RunStep(engine, tx, ms, shifted, current);
    BothSent(engine, tx, ms[0], shifted);
    BothSent(engine, tx, ms[0], None);
    assert Later(Later(shifted)) == cut;
    assert SentBoth(engine, tx, ms[0], shifted) == SentBoth(engine, tx, ms[0], None) by {
      assert Here(shifted) == None && Here(Later(shifted)) == None;
      hide Sent;
    }
    hide RunAll, SentBoth, ApplyOne;
    var next := SentBoth(engine, tx, ms[0], None).0;
    CurrentIsOnlyReported(engine, next, Statements(ms[1..]), cut, current, ms[0].version);
  }

  lemma RestLeavesPrefix<S>(engine: Engine<S>, tx: Tx<S>, ms: seq<Migration>)
    requires Coherent(tx) && Behind(tx) && ms != [] && ApplyOne(engine, tx.visible, ms[0]).Some? && AlwaysLeavesPrefix(engine, tx, ms)
    ensures AlwaysLeavesPrefix(engine, SentBoth(engine, tx, ms[0], None).0, ms[1..])
  {
    var next := SentBoth(engine, tx, ms[0], None).0;
    ApplyOneExecutes(engine, tx.visible, ms[0]);
    hide RunAll, SentBoth, ApplyOne, AppliedPrefix;
    forall cut
      ensures LeavesPrefix(engine, next, ms[1..], RunAll(engine, next, Statements(ms[1..]), cut, 0).db)
    {
      RestOfRun(engine, tx, ms, cut, 0);
      var after := RunAll(engine, tx, Statements(ms), Shifted(cut), 0).db;
      assert LeavesPrefix(engine, tx, ms, after);
      RowsGrow(engine, next, ms[1..], cut, 0);
      if after != next.durable {
        var k: nat :| AppliedPrefix(engine, tx.visible, ms, k, after);
        PrefixTail(engine, tx.visible, ms, k, after);
        assert AppliedPrefix(engine, next.visible, ms[1..], k - 1, after);
      }
    }
  }

  lemma PrefixTail<S>(engine: Engine<S>, db: Db<S>, ms: seq<Migration>, k: nat, after: Db<S>)
    requires AppliedPrefix(engine, db, ms, k, after) && ms != [] && ApplyOne(engine, db, ms[0]).Some?
    ensures k == 0 ==> after == db
    ensures k > 0 ==> AppliedPrefix(engine, ApplyOne(engine, db, ms[0]).value, ms[1..], k - 1, after)
    ensures |after.history| == |db.history| + k
  {
    assert ms[..k][..k] == ms[..k];
    PrefixApplies(engine, db, ms[..k], k);
    if k > 0 {
      assert ms[..k][0] == ms[0] && ms[..k][1..] == ms[1..][..k - 1];
    }
    hide ApplyOne;
  }

  lemma {:induction false} HarmlessIsNeeded<S>(engine: Engine<S>, tx: Tx<S>, ms: seq<Migration>)
    requires Coherent(tx) && Behind(tx) && ApplyPending(engine, tx.visible, ms).Ok? && AlwaysLeavesPrefix(engine, tx, ms)
    ensures Harmless(engine, tx.visible.schema, ms, !tx.open)
    decreases |ms|
  {
    if ms != [] {
      ApplyOneExecutes(engine, tx.visible, ms[0]);
      FirstTextIdle(engine, tx, ms);
      RestLeavesPrefix(engine, tx, ms);
      RestOfRun(engine, tx, ms, None, 0);
      hide RunAll, SentBoth, ApplyOne, AppliedPrefix, AlwaysLeavesPrefix;
      HarmlessIsNeeded(engine, SentBoth(engine, tx, ms[0], None).0, ms[1..]);
    }
  }

  lemma FirstTextIdle<S>(engine: Engine<S>, tx: Tx<S>, ms: seq<Migration>)
    requires Coherent(tx) && Behind(tx) && ms != [] && ApplyOne(engine, tx.visible, ms[0]).Some? && AlwaysLeavesPrefix(engine, tx, ms)
    ensures !tx.open || engine.commits(ms[0].sql) ==> engine.execute(tx.visible.schema, ms[0].sql) == Some(tx.visible.schema)
  {
    if !tx.open || engine.commits(ms[0].sql) {
      ApplyOneExecutes(engine, tx.visible, ms[0]);
      EmptyApplies(engine, tx.visible, ms);
      hide RunAll, ApplyOne, AppliedPrefix, ApplyPending;
      assert CommitsBefore(engine, tx, ms, 1);
      CutBeforeRecord(engine, tx, ms, 0, 0);
      var after := RunAll(engine, tx, Statements(ms), Some(Cut(1, false)), 0).db;
      assert LeavesPrefix(engine, tx, ms, after);
      if after != tx.durable {
        var k: nat :| AppliedPrefix(engine, tx.visible, ms, k, after);
        PrefixTail(engine, tx.visible, ms, k, after);
      }
    }
  }

  /** A transaction over migrations that can be applied leaves a prefix of them under every fault iff
      from the first text that commits on none changes the schema. */
  lemma {:induction false} PrefixIff<S>(engine: Engine<S>, db: Db<S>, ms: seq<Migration>)
    requires ApplyPending(engine, db, ms).Ok?
    ensures AlwaysLeavesPrefix(engine, Begun(db), ms) <==> Harmless(engine, db.schema, ms, false)
  {
    hide RunAll;
    if Harmless(engine, db.schema, ms, false) {
      forall cut
        ensures LeavesPrefix(engine, Begun(db), ms, RunAll(engine, Begun(db), Statements(ms), cut, 0).db)
      {
        HarmlessLeavesPrefix(engine, Begun(db), ms, cut, 0);
      }
    }
    if AlwaysLeavesPrefix(engine, Begun(db), ms) {
      HarmlessIsNeeded(engine, Begun(db), ms);
    }
  }

  lemma {:induction false} HarmlessPart<S>(engine: Engine<S>, db: Db<S>, ms: seq<Migration>, j: nat, autocommit: bool)
    requires j <= |ms| && Harmless(engine, db.schema, ms, autocommit)
    ensures Harmless(engine, db.schema, ms[..j], autocommit)
    ensures ApplyPending(engine, db, ms[..j]).Ok? ==> Harmless(engine, ApplyPending(engine, db, ms[..j]).value.schema, ms[j..], false)
    decreases j
  {
    if j == 0 {
      if autocommit {
        HarmlessInTransaction(engine, db.schema, ms);
      }
    } else {
      assert ms[..j][0] == ms[0] && ms[..j][1..] == ms[1..][..j - 1] && ms[1..][j - 1..] == ms[j..];
      ApplyOneExecutes(engine, db, ms[0]);
      hide ApplyOne;
      var commits := autocommit || engine.commits(ms[0].sql);
      if engine.execute(db.schema, ms[0].sql).Some? {
        var next := Db(engine.execute(db.schema, ms[0].sql).value, db.history);
        HarmlessPart(engine, next, ms[1..], j - 1, commits);
        if ApplyOne(engine, db, ms[0]).Some? {
          HarmlessPart(engine, ApplyOne(engine, db, ms[0]).value, ms[1..], j - 1, commits);
        }
      }
    }
  }

  // ---- The plain runner ----

  /** The texts alone, for a list of which none commits: all or nothing. */
  lemma {:induction false} PlainAllOrNothing<S>(engine: Engine<S>, tx: Tx<S>, ms: seq<Migration>, cut: Option<Cut>, current: int)
    requires tx.open && NoneCommits(engine, ms)
    ensures var ended := RunAll(engine, tx, Texts(ms), cut, current);
            && ended.db.history in {tx.durable.history, tx.visible.history}
            && (ended.db == tx.durable || ExecuteAll(engine, tx.visible.schema, ms) == Ok(ended.db.schema))
    decreases |ms|
  {
    if ms != [] {
      var (next, done) := Sent(engine, tx, Sql(ms[0]), Here(cut));
      assert Texts(ms)[1..] == Texts(ms[1..]);
      if done {
        PlainAllOrNothing(engine, next, ms[1..], Later(cut), ms[0].version);
      }
    }
  }

  lemma {:induction false} PlainSuccess<S>(engine: Engine<S>, tx: Tx<S>, ms: seq<Migration>, current: int)
    requires Coherent(tx)
    ensures RunAll(engine, tx, Texts(ms), None, current).failed == None <==> ExecuteAll(engine, tx.visible.schema, ms).Ok?
    ensures ExecuteAll(engine, tx.visible.schema, ms).Ok? ==>
              RunAll(engine, tx, Texts(ms), None, current).db == Db(ExecuteAll(engine, tx.visible.schema, ms).value, tx.visible.history)
    decreases |ms|
  {
    if ms != [] {
      assert Texts(ms)[1..] == Texts(ms[1..]);
      if engine.execute(tx.visible.schema, ms[0].sql).Some? {
        PlainSuccess(engine, Perform(engine, tx, Sql(ms[0])).value, ms[1..], ms[0].version);
      }
    }
  }

  /** Where a text commits, a fault right after it leaves the texts up to it executed. */
  lemma {:induction false} PlainCutAfterCommit<S>(engine: Engine<S>, tx: Tx<S>, ms: seq<Migration>, c: nat, current: int)
    requires Coherent(tx) && c < |ms| && CommitsBefore(engine, tx, ms, c + 1) && ExecuteAll(engine, tx.visible.schema, ms[..c + 1]).Ok?
    ensures RunAll(engine, tx, Texts(ms), Some(Cut(c + 1, false)), current) ==
            Ended(Db(ExecuteAll(engine, tx.visible.schema, ms[..c + 1]).value, tx.visible.history), Some(ms[if c + 1 < |ms| then c + 1 else c].version))
    decreases c
  {
    assert Texts(ms)[1..] == Texts(ms[1..]);
    assert ms[..c + 1][0] == ms[0] && ms[..c + 1][1..] == ms[1..][..c];
    var next := Perform(engine, tx, Sql(ms[0])).value;
    var rest := Some(Cut(c, false));
    assert RunAll(engine, tx, Texts(ms), Some(Cut(c + 1, false)), current) == RunAll(engine, next, Texts(ms[1..]), rest, ms[0].version);
    if c > 0 {
      hide RunAll, Texts, Perform;
      CommitsBeforeStep(engine, tx, next, ms, c + 1);
      PlainCutAfterCommit(engine, next, ms[1..], c - 1, ms[0].version);
    } else {
      FirstCut(engine, next, Texts(ms[1..]), ms[0].version);
      hide RunAll;
    }
  }

  lemma {:induction false} FirstCut<S>(engine: Engine<S>, tx: Tx<S>, statements: seq<Statement>, current: int)
    ensures RunAll(engine, tx, statements, Some(Cut(0, false)), current) ==
            Ended(tx.durable, Some(if statements == [] then current else statements[0].m.version))
  {
  }

  ghost predicate Executed<S>(engine: Engine<S>, db: Db<S>, ms: seq<Migration>, n: nat, after: Db<S>) {
    n <= |ms| && ExecuteAll(engine, db.schema, ms[..n]) == Ok(after.schema) && after.history == db.history
  }

  lemma ExecutedStep<S>(engine: Engine<S>, db: Db<S>, ms: seq<Migration>, n: nat, after: Db<S>)
    requires ms != [] && engine.execute(db.schema, ms[0].sql).Some?
    requires Executed(engine, Db(engine.execute(db.schema, ms[0].sql).value, db.history), ms[1..], n, after)
    ensures Executed(engine, db, ms, n + 1, after)
  {
    assert ms[..n + 1][0] == ms[0] && ms[..n + 1][1..] == ms[1..][..n];
  }

  /** A failing plain transaction leaves what was committed, or the texts up to one that is behind a
      text that commits, or all. */
  lemma {:induction false} PlainOutcome<S>(engine: Engine<S>, tx: Tx<S>, ms: seq<Migration>, cut: Option<Cut>, current: int) returns (n: nat)
    requires Coherent(tx) && ExecuteAll(engine, tx.visible.schema, ms).Ok?
    ensures var after := RunAll(engine, tx, Texts(ms), cut, current).db;
            after == tx.durable || (Executed(engine, tx.visible, ms, n, after) && (n == |ms| || CommitsBefore(engine, tx, ms, n)))
    decreases |ms|
  {
    assert ms[..0] == [];
    if ms == [] {
      return 0;
    }
    assert Texts(ms)[1..] == Texts(ms[1..]);
    var next := Perform(engine, tx, Sql(ms[0])).value;
    var rest := RunAll(engine, next, Texts(ms[1..]), Later(cut), ms[0].version).db;
    assert RunAll(engine, tx, Texts(ms), cut, current).db ==
           if Here(cut) == None then rest else if Here(cut) == Some(true) then next.durable else tx.durable;
    hide RunAll, Texts;
    assert ms[1..][..0] == [];
    ExecutedStep(engine, tx.visible, ms, 0, next.visible);
    if Here(cut) != None {
      return 1;
    }
    n := PlainOutcome(engine, next, ms[1..], Later(cut), ms[0].version);
    if rest == next.durable {
      return 1;
    }
    ExecutedStep(engine, tx.visible, ms, n, rest);
    if n < |ms| - 1 {
      CommitsBack(engine, tx, next, ms, n);
    }
    return n + 1;
  }

  lemma CommitsBack<S>(engine: Engine<S>, tx: Tx<S>, next: Tx<S>, ms: seq<Migration>, n: nat)
    requires ms != [] && next.open == (tx.open && !engine.commits(ms[0].sql)) && CommitsBefore(engine, next, ms[1..], n)
    ensures CommitsBefore(engine, tx, ms, n + 1)
  {
    if next.open {
      var j :| 0 <= j < n && j < |ms[1..]| && engine.commits(ms[1..][j].sql);
      assert ms[j + 1] == ms[1..][j];
    }
  }

  ghost predicate PlainAtomic<S>(engine: Engine<S>, db: Db<S>, ms: seq<Migration>, full: S) {
    forall cut :: PlainAtomicUnder(engine, db, ms, full, cut)
  }

  ghost predicate PlainAtomicUnder<S>(engine: Engine<S>, db: Db<S>, ms: seq<Migration>, full: S, cut: Option<Cut>) {
    RunAll(engine, Begun(db), Texts(ms), cut, 0).db.schema in {db.schema, full}
  }

  /** The texts from the first that commits up to each later one but the last do nothing, or all. */
  ghost predicate PlainHarmless<S>(engine: Engine<S>, db: Db<S>, ms: seq<Migration>, full: S) {
    forall n: nat :: 0 < n < |ms| && CommitsBefore(engine, Begun(db), ms, n) ==> NothingOrAll(engine, db, ms, n, full)
  }

  ghost predicate NothingOrAll<S>(engine: Engine<S>, db: Db<S>, ms: seq<Migration>, n: nat, full: S)
    requires n <= |ms|
  {
    ExecuteAll(engine, db.schema, ms[..n]) in {Ok(db.schema), Ok(full)}
  }

  lemma {:induction false} ExecutesPart<S>(engine: Engine<S>, schema: S, ms: seq<Migration>, n: nat)
    requires n <= |ms| && ExecuteAll(engine, schema, ms).Ok?
    ensures ExecuteAll(engine, schema, ms[..n]).Ok?
    decreases n
  {
    if n > 0 {
      assert ms[..n][0] == ms[0] && ms[..n][1..] == ms[1..][..n - 1];
      ExecutesPart(engine, engine.execute(schema, ms[0].sql).value, ms[1..], n - 1);
    }
  }

  /** The plain transaction over texts that can be executed leaves all or nothing under every fault iff
      no text but the last commits, or those up to it make no difference. */
  lemma {:induction false} PlainAtomicIff<S>(engine: Engine<S>, db: Db<S>, ms: seq<Migration>)
    requires ExecuteAll(engine, db.schema, ms).Ok?
    ensures PlainAtomic(engine, db, ms, ExecuteAll(engine, db.schema, ms).value) <==>
            PlainHarmless(engine, db, ms, ExecuteAll(engine, db.schema, ms).value)
  {
    var full := ExecuteAll(engine, db.schema, ms).value;
    hide RunAll, Texts, CommitsBefore;
    if PlainHarmless(engine, db, ms, full) {
      forall cut
        ensures PlainAtomicUnder(engine, db, ms, full, cut)
      {
        var n := PlainOutcome(engine, Begun(db), ms, cut, 0);
        assert n == |ms| ==> ms[..n] == ms;
        assert ms[..0] == [];
      }
    }
    if PlainAtomic(engine, db, ms, full) {
      forall n: nat | 0 < n < |ms| && CommitsBefore(engine, Begun(db), ms, n)
        ensures NothingOrAll(engine, db, ms, n, full)
      {
        ExecutesPart(engine, db.schema, ms, n);
        PlainCutAfterCommit(engine, Begun(db), ms, n - 1, 0);
        assert PlainAtomicUnder(engine, db, ms, full, Some(Cut(n, false)));
      }
    }
  }
}
