/** Which refusal each migration check gives, where a transaction fails, and what the plain runner
    selects: told from the lists alone. */
module MigrationErrors {
  import opened Common
  import opened Migrations
  import opened MigrationTransactions
  import opened MigrationRuns

  // ---- The first fault of a list ----

  ghost predicate BadVersion(seen: set<int>, ms: seq<Migration>, i: nat)
    requires i < |ms|
  {
    ms[i].version < 1 || RepeatedVersion(seen, ms, i)
  }

  ghost predicate RepeatedVersion(seen: set<int>, ms: seq<Migration>, i: nat)
    requires i < |ms|
  {
    ms[i].version in seen || exists j :: 0 <= j < i && ms[j].version == ms[i].version
  }

  lemma RepeatedBehind(seen: set<int>, ms: seq<Migration>, i: nat)
    requires i + 1 < |ms|
    ensures RepeatedVersion(seen, ms, i + 1) <==> RepeatedVersion(seen + {ms[0].version}, ms[1..], i)
  {
    if j :| 0 <= j < i + 1 && ms[j].version == ms[i + 1].version && j > 0 {
      assert ms[1..][j - 1] == ms[j];
    }
    if j :| 0 <= j < i && ms[1..][j].version == ms[1..][i].version {
      assert ms[j + 1].version == ms[i + 1].version;
    }
  }

  /** The sequence check names the first migration whose version is not positive or repeats. */
  lemma {:induction false} SequenceErrorIs(seen: set<int>, ms: seq<Migration>) returns (i: nat)
    ensures i <= |ms| && (forall j :: 0 <= j < i ==> !BadVersion(seen, ms, j)) && (i < |ms| ==> BadVersion(seen, ms, i))
    ensures SequenceError(seen, ms) == if i < |ms| then Some(ms[i].version) else None
    decreases |ms|
  {
    i := 0;
    if ms != [] && !BadVersion(seen, ms, 0) {
      var rest := SequenceErrorIs(seen + {ms[0].version}, ms[1..]);
      i := rest + 1;
      forall j | 0 <= j < i
        ensures !BadVersion(seen, ms, j)
      {
        if j > 0 {
          RepeatedBehind(seen, ms, j - 1);
          assert ms[j] == ms[1..][j - 1] && !BadVersion(seen + {ms[0].version}, ms[1..], j - 1);
        }
      }
      if i < |ms| {
        RepeatedBehind(seen, ms, rest);
      }
    }
  }

  ghost predicate UnusableAt(seen: set<int>, ms: seq<Migration>, i: nat)
    requires i < |ms|
  {
    BadVersion(seen, ms, i) || Trim(ms[i].name) == "" || Trim(ms[i].fileName) == "" || Trim(ms[i].sql) == ""
  }

  /** The check of the set names the first one that is so or has a blank name, file name or text. */
  lemma {:induction false} SetErrorIs(seen: set<int>, ms: seq<Migration>) returns (i: nat)
    ensures i <= |ms| && (forall j :: 0 <= j < i ==> !UnusableAt(seen, ms, j)) && (i < |ms| ==> UnusableAt(seen, ms, i))
    ensures SetError(seen, ms) == if i < |ms| then Some(ms[i].version) else None
    decreases |ms|
  {
    hide Trim;
    i := 0;
    if ms != [] && !UnusableAt(seen, ms, 0) {
      var rest := SetErrorIs(seen + {ms[0].version}, ms[1..]);
      i := rest + 1;
      forall j | 0 <= j < i
        ensures !UnusableAt(seen, ms, j)
      {
        if j > 0 {
          RepeatedBehind(seen, ms, j - 1);
          assert ms[j] == ms[1..][j - 1] && !UnusableAt(seen + {ms[0].version}, ms[1..], j - 1);
        }
      }
      if i < |ms| {
        RepeatedBehind(seen, ms, rest);
      }
    }
  }

  /** The plain runner names the first version that repeats. */
  lemma {:induction false} DuplicateErrorIs(seen: set<int>, ms: seq<Migration>) returns (i: nat)
    ensures i <= |ms| && (forall j :: 0 <= j < i ==> !RepeatedVersion(seen, ms, j)) && (i < |ms| ==> RepeatedVersion(seen, ms, i))
    ensures DuplicateError(seen, ms) == if i < |ms| then Some(ms[i].version) else None
    decreases |ms|
  {
    i := 0;
    if ms != [] && !RepeatedVersion(seen, ms, 0) {
      var rest := DuplicateErrorIs(seen + {ms[0].version}, ms[1..]);
      i := rest + 1;
      forall j | 0 <= j < i
        ensures !RepeatedVersion(seen, ms, j)
      {
        if j > 0 {
          RepeatedBehind(seen, ms, j - 1);
        }
      }
      if i < |ms| {
        RepeatedBehind(seen, ms, rest);
      }
    }
  }

  /** And the first applied version that is not positive. */
  lemma {:induction false} AppliedErrorIs(applied: seq<int>) returns (i: nat)
    ensures i <= |applied| && (forall j :: 0 <= j < i ==> applied[j] >= 1) && (i < |applied| ==> applied[i] < 1)
    ensures AppliedError(applied) == if i < |applied| then Some(applied[i]) else None
  {
    i := 0;
    if applied != [] && applied[0] >= 1 {
      var rest := AppliedErrorIs(applied[1..]);
      i := rest + 1;
      assert forall j :: 0 < j < i ==> applied[j] == applied[1..][j - 1];
    }
  }

  ghost predicate BadEntry(seen: set<int>, entries: seq<Entry>, i: nat)
    requires i < |entries|
  {
    || entries[i].version < 1 || entries[i].version in seen || (exists j :: 0 <= j < i && entries[j].version == entries[i].version)
    || Trim(entries[i].name) == "" || Trim(entries[i].fileName) == ""
  }

  lemma BadEntryBehind(seen: set<int>, entries: seq<Entry>, i: nat)
    requires i + 1 < |entries|
    ensures BadEntry(seen, entries, i + 1) <==> BadEntry(seen + {entries[0].version}, entries[1..], i)
  {
    hide Trim;
    if j :| 0 <= j < i + 1 && entries[j].version == entries[i + 1].version && j > 0 {
      assert entries[1..][j - 1] == entries[j];
    }
    if j :| 0 <= j < i && entries[1..][j].version == entries[1..][i].version {
      assert entries[j + 1].version == entries[i + 1].version;
    }
  }

  /** Reading the history names the first row whose version is not positive or repeats, or whose name
      or file name is blank. */
  lemma {:induction false} HistoryErrorIs(seen: set<int>, entries: seq<Entry>) returns (i: nat)
    ensures i <= |entries| && (forall j :: 0 <= j < i ==> !BadEntry(seen, entries, j)) && (i < |entries| ==> BadEntry(seen, entries, i))
    ensures HistoryError(seen, entries) == if i < |entries| then Some(entries[i].version) else None
    decreases |entries|
  {
    hide Trim;
    i := 0;
    if entries != [] && !BadEntry(seen, entries, 0) {
      var rest := HistoryErrorIs(seen + {entries[0].version}, entries[1..]);
      i := rest + 1;
      forall j | 0 <= j < i
        ensures !BadEntry(seen, entries, j)
      {
        if j > 0 {
          BadEntryBehind(seen, entries, j - 1);
        }
      }
      if i < |entries| {
        BadEntryBehind(seen, entries, rest);
      }
    }
  }

  /** The row names another migration, or the same with another text. */
  predicate Renamed(m: Migration, entry: Entry) {
    entry.version != m.version || entry.name != m.name || entry.fileName != m.fileName
  }

  predicate Rewritten(m: Migration, entry: Entry) {
    !Renamed(m, entry) && entry.fingerprint.sql != m.sql
  }

  predicate Agrees(m: Migration, entry: Entry) {
    !Renamed(m, entry) && !Rewritten(m, entry)
  }

  /** The comparison of the history with the list names the first row that differs, by its version. */
  lemma {:induction false} PrefixErrorIs(ms: seq<Migration>, history: seq<Entry>) returns (i: nat)
    requires |history| <= |ms|
    ensures i <= |history| && (forall j :: 0 <= j < i ==> Agrees(ms[j], history[j])) && (i < |history| ==> !Agrees(ms[i], history[i]))
    ensures PrefixError(ms, history) ==
            if i == |history| then None
            else Some(if Renamed(ms[i], history[i]) then OrderMismatch(Some(history[i].version)) else FingerprintMismatch(history[i].version))
  {
    i := 0;
    if history != [] && Agrees(ms[0], history[0]) {
      var rest := PrefixErrorIs(ms[1..], history[1..]);
      i := rest + 1;
      assert forall j :: 0 < j <= i && j < |history| ==> ms[1..][j - 1] == ms[j] && history[1..][j - 1] == history[j];
    }
  }

  /** The checker does the same, by the version of the migration. */
  lemma {:induction false} RecordErrorsAre(ms: seq<Migration>, history: seq<Entry>) returns (i: nat)
    requires |history| == |ms|
    ensures i <= |history| && (forall j :: 0 <= j < i ==> Agrees(ms[j], history[j])) && (i < |history| ==> !Agrees(ms[i], history[i]))
    ensures RecordErrors(ms, history) ==
            if i == |history| then None
            else Some(if Renamed(ms[i], history[i]) then OrderMismatch(Some(ms[i].version)) else FingerprintMismatch(ms[i].version))
  {
    i := 0;
    if history != [] && Agrees(ms[0], history[0]) {
      var rest := RecordErrorsAre(ms[1..], history[1..]);
      i := rest + 1;
      assert forall j :: 0 < j <= i && j < |history| ==> ms[1..][j - 1] == ms[j] && history[1..][j - 1] == history[j];
    }
  }

  // ---- Every refusal ----

  /** How far each check of a tracked run gets: to `s` in the sorted list, to `h` in the history, and
      to `d` where they are compared. The first of them that does not get through refuses the run. */
  lemma TrackedRefusalIs<S>(engine: Engine<S>, db: Db<S>, ms: seq<Migration>, cut: Option<Cut>) returns (s: nat, h: nat, d: nat)
    requires NoRowsUntracked(engine, db)
    ensures var sorted, history := Sort(ms), db.history;
            && s <= |sorted| && (forall j :: 0 <= j < s ==> !BadVersion({}, sorted, j)) && (s < |sorted| ==> BadVersion({}, sorted, s))
            && h <= |history| && (forall j :: 0 <= j < h ==> !BadEntry({}, history, j)) && (h < |history| ==> BadEntry({}, history, h))
            && (|history| <= |sorted| ==>
                  && d <= |history| && (forall j :: 0 <= j < d ==> Agrees(sorted[j], history[j]))
                  && (d < |history| ==> !Agrees(sorted[d], history[d])))
            && var (after, result) := TrackedRun(engine, db, ms, cut);
               if s < |sorted| then after == db && result == Err(OrderMismatch(Some(sorted[s].version)))
               else if h < |history| then after == db && result == Err(InvalidHistory(history[h].version))
               else if |history| > |sorted| then after == db && result == Err(OrderMismatch(None))
               else if d < |history| then after == db && result == Err(if Renamed(sorted[d], history[d]) then OrderMismatch(Some(history[d].version))
                                                                       else FingerprintMismatch(history[d].version))
               else Admitted(engine, db, ms) && (result.Ok? || result.error.ExecutionFailed?)
  {
    var sorted, history := Sort(ms), db.history;
    s := SequenceErrorIs({}, sorted);
    h := HistoryErrorIs({}, history);
    d := 0;
    if |history| <= |sorted| {
      d := PrefixErrorIs(sorted, history);
    }
    hide Sort, SequenceError, HistoryError, PrefixError, RunAll, BadVersion, BadEntry, Agrees, Renamed, Versions, EntryVersions, Fingerprints;
  }

  /** The checker likewise. */
  lemma InspectRefusalIs<S>(engine: Engine<S>, db: Db<S>, ms: seq<Migration>) returns (s: nat, h: nat, d: nat)
    ensures var sorted, history := Sort(ms), db.history;
            && s <= |sorted| && (forall j :: 0 <= j < s ==> !UnusableAt({}, sorted, j)) && (s < |sorted| ==> UnusableAt({}, sorted, s))
            && h <= |history| && (forall j :: 0 <= j < h ==> !BadEntry({}, history, j)) && (h < |history| ==> BadEntry({}, history, h))
            && (|history| == |sorted| ==>
                  && d <= |history| && (forall j :: 0 <= j < d ==> Agrees(sorted[j], history[j]))
                  && (d < |history| ==> !Agrees(sorted[d], history[d])))
            && var result := Inspect(engine, db, ms);
               if s < |sorted| then result == Err(SetInvalid(sorted[s].version))
               else if !engine.tracked(db.schema) || h < |history| then result == Err(Unavailable)
               else if |history| != |sorted| then result == Err(CountMismatch)
               else if d < |history| then result == Err(if Renamed(sorted[d], history[d]) then OrderMismatch(Some(sorted[d].version))
                                                        else FingerprintMismatch(sorted[d].version))
               else result.Ok?
  {
    var sorted, history := Sort(ms), db.history;
    s := SetErrorIs({}, sorted);
    h := HistoryErrorIs({}, history);
    d := 0;
    if |history| == |sorted| {
      d := RecordErrorsAre(sorted, history);
    }
    hide Sort, SetError, HistoryError, RecordErrors, UnusableAt, BadEntry, Agrees, Renamed, Versions, Fingerprints;
  }

  // ---- Where a transaction fails ----

  /** A failing transaction names the migration at which it fails: all before it were applied, and it is
      refused, or a fault hit its text or its row; behind the last one only COMMIT can fail. */
  lemma {:induction false} FailureNames<S>(engine: Engine<S>, tx: Tx<S>, ms: seq<Migration>, cut: Option<Cut>, current: int) returns (k: nat)
    requires Coherent(tx) && RunAll(engine, tx, Statements(ms), cut, current).failed.Some?
    ensures k <= |ms| && ApplyPending(engine, tx.visible, ms[..k]).Ok?
    ensures var failed := RunAll(engine, tx, Statements(ms), cut, current).failed.value;
            if k < |ms| then
              && failed == ms[k].version
              && (ApplyOne(engine, ApplyPending(engine, tx.visible, ms[..k]).value, ms[k]) == None
                  || (cut.Some? && (cut.value.at == 2 * k || cut.value.at == 2 * k + 1)))
            else cut.Some? && cut.value.at == 2 * |ms| && failed == if ms == [] then current else ms[|ms| - 1].version
    decreases |ms|
  {
    hide SentBoth, ApplyOne;
    k := 0;
    if ms != [] {
      RunStep(engine, tx, ms, cut, current);
      BothSent(engine, tx, ms[0], cut);
      var (next, done) := SentBoth(engine, tx, ms[0], cut);
      assert ms[..0] == [];
      if done {
        var rest := FailureNames(engine, next, ms[1..], Later(Later(cut)), ms[0].version);
        k := rest + 1;
        assert ms[..k][0] == ms[0] && ms[..k][1..] == ms[1..][..rest];
      }
    }
  }

  // ---- The rows of the history ----

  /** No version and no file name occurs twice. */
  ghost predicate RowsDiffer(history: seq<Entry>) {
    forall i, j :: 0 <= i < j < |history| ==> history[i].version != history[j].version && history[i].fileName != history[j].fileName
  }

  lemma {:induction false} TransactionKeepsRowsApart<S>(engine: Engine<S>, tx: Tx<S>, statements: seq<Statement>, cut: Option<Cut>, current: int)
    requires RowsDiffer(tx.visible.history) && RowsDiffer(tx.durable.history)
    ensures RowsDiffer(RunAll(engine, tx, statements, cut, current).db.history)
    decreases |statements|
  {
    if statements != [] {
      StatementKeepsRowsApart(engine, tx, statements[0], Here(cut));
      hide Sent;
      var (next, done) := Sent(engine, tx, statements[0], Here(cut));
      if done {
        TransactionKeepsRowsApart(engine, next, statements[1..], Later(cut), statements[0].m.version);
      }
    }
  }

  lemma StatementKeepsRowsApart<S>(engine: Engine<S>, tx: Tx<S>, statement: Statement, lost: Option<bool>)
    requires RowsDiffer(tx.visible.history) && RowsDiffer(tx.durable.history)
    ensures RowsDiffer(Sent(engine, tx, statement, lost).0.visible.history) && RowsDiffer(Sent(engine, tx, statement, lost).0.durable.history)
  {
  }

  /** Whatever fails in whatever runs, the history never holds a version or a file name twice. */
  lemma {:induction false} HistoryRowsDiffer<S>(engine: Engine<S>, initial: S, attempts: seq<Attempt>)
    ensures RowsDiffer(RunAttempts(engine, Db(initial, []), attempts).history)
    decreases |attempts|
  {
    if attempts != [] {
      var last := attempts[|attempts| - 1];
      HistoryRowsDiffer(engine, initial, attempts[..|attempts| - 1]);
      RunKeepsRowsApart(engine, RunAttempts(engine, Db(initial, []), attempts[..|attempts| - 1]), last.release, last.cut);
      hide TrackedRun;
    }
  }

  lemma RunKeepsRowsApart<S>(engine: Engine<S>, db: Db<S>, ms: seq<Migration>, cut: Option<Cut>)
    requires RowsDiffer(db.history)
    ensures RowsDiffer(TrackedRun(engine, db, ms, cut).0.history)
  {
    hide RunAll, RowsDiffer, Sort, SequenceError, PrefixError, HistoryError, Statements;
    forall pending: seq<Migration>
      ensures RowsDiffer(RunAll(engine, Begun(db), Statements(pending), cut, 0).db.history)
    {
      TransactionKeepsRowsApart(engine, Begun(db), Statements(pending), cut, 0);
    }
  }

  // ---- The plain runner ----

  lemma {:induction false} SelectedAre(ms: seq<Migration>, versions: set<int>, member: bool)
    ensures forall m :: m in Select(ms, versions, member) <==> m in ms && (m.version in versions <==> member)
  {
    if ms != [] {
      SelectedAre(ms[1..], versions, member);
      assert ms == [ms[0]] + ms[1..];
    }
  }

  ghost predicate Above(ms: seq<Migration>, version: int) {
    forall i :: 0 <= i < |ms| ==> version < ms[i].version
  }

  lemma {:induction false} SelectedStayAbove(ms: seq<Migration>, versions: set<int>, member: bool, version: int)
    requires Above(ms, version)
    ensures Above(Select(ms, versions, member), version)
  {
    if ms != [] {
      SelectedStayAbove(ms[1..], versions, member, version);
    }
  }

  lemma {:induction false} SelectedAscend(ms: seq<Migration>, versions: set<int>, member: bool)
    requires Ascending(ms)
    ensures Ascending(Select(ms, versions, member))
  {
    if ms != [] {
      assert Ascending(ms[1..]) && Above(ms[1..], ms[0].version);
      SelectedAscend(ms[1..], versions, member);
      SelectedStayAbove(ms[1..], versions, member, ms[0].version);
    }
  }

  /** It selects, in order, exactly the migrations whose version is, or is not, among the given ones. */
  lemma {:induction false} SelectedIs(ms: seq<Migration>, versions: set<int>, member: bool)
    requires Ascending(ms)
    ensures Ascending(Select(ms, versions, member))
    ensures forall m :: m in Select(ms, versions, member) <==> m in ms && (m.version in versions <==> member)
  {
    hide Select, Ascending;
    SelectedAscend(ms, versions, member);
    SelectedAre(ms, versions, member);
  }

  /** The first refusal of the plain runner, and what a success reports: for distinct versions, the
      sorted list cut into those applied and those skipped. */
  lemma PlainRunIs<S>(engine: Engine<S>, db: Db<S>, ms: seq<Migration>, applied: seq<int>, cut: Option<Cut>) returns (s: nat, a: nat)
    ensures s <= |ms| && (forall j :: 0 <= j < s ==> !RepeatedVersion({}, ms, j)) && (s < |ms| ==> RepeatedVersion({}, ms, s))
    ensures a <= |applied| && (forall j :: 0 <= j < a ==> applied[j] >= 1) && (a < |applied| ==> applied[a] < 1)
    ensures var (after, result) := VersionedRun(engine, db, ms, applied, cut);
            if s < |ms| then after == db && result == Err(DuplicateVersion(ms[s].version))
            else if a < |applied| then after == db && result == Err(InvalidAppliedVersion(applied[a]))
            else if result.Err? then result.error.ExecutionFailed?
            else result.value.discovered == Versions(Sort(ms))
                 && result.value.applied == Versions(Select(Sort(ms), set v | v in applied, false))
                 && result.value.skipped == Versions(Select(Sort(ms), set v | v in applied, true))
  {
    s := DuplicateErrorIs({}, ms);
    a := AppliedErrorIs(applied);
    hide DuplicateError, AppliedError, Sort, Select, RunAll, Versions, RepeatedVersion;
  }
}
