/** Versioned migrations of packages/database: the tracked runner with its history table, the
    separate integrity checker, and the plain runner. */
module Migrations {
  import opened Common

  /** SHA-256, taken to be injective: a digest stands for the text it was computed from. */
  datatype Digest = Digest(sql: string)

  datatype Migration = Migration(version: int, name: string, fileName: string, sql: string)

  /** A history row without `applied_order` and `applied_at`. */
  datatype Entry = Entry(version: int, name: string, fileName: string, fingerprint: Digest)

  datatype Row = Row(entry: Entry, appliedOrder: nat)

  /** The database: executing a text on a schema may be refused; a schema may hold the history table;
      a text may end the transaction it runs in, by a COMMIT as its last statement (as those of
      infra/migrations/0006 to 0009 do). */
  datatype Engine<!S> = Engine(execute: (S, string) -> Option<S>, tracked: S -> bool, commits: string -> bool)

  /** Migrations are taken not to drop the history table, and not to touch its rows. */
  ghost predicate KeepsTable<S(!new)>(engine: Engine<S>) {
    forall schema, sql :: engine.tracked(schema) && engine.execute(schema, sql).Some? ==> engine.tracked(engine.execute(schema, sql).value)
  }

  datatype Db<S> = Db(schema: S, history: seq<Entry>)

  datatype Error =
    | OrderMismatch(at: Option<int>)
    | FingerprintMismatch(version: int)
    | InvalidHistory(version: int)
    | ExecutionFailed(version: int)
    | DuplicateVersion(version: int) | InvalidAppliedVersion(version: int)
    | Unavailable | SetInvalid(version: int) | CountMismatch

  datatype RunResult = RunResult(discovered: seq<int>, applied: seq<int>, skipped: seq<int>)

  datatype TrackedResult = TrackedResult(run: RunResult, fingerprints: seq<Digest>)

  function EntryOf(m: Migration): Entry {
    Entry(m.version, m.name, m.fileName, Digest(m.sql))
  }

  function Entries(ms: seq<Migration>): (entries: seq<Entry>)
    ensures |entries| == |ms| && forall i :: 0 <= i < |ms| ==> entries[i] == EntryOf(ms[i])
  {
    if ms == [] then [] else [EntryOf(ms[0])] + Entries(ms[1..])
  }

  function Versions(ms: seq<Migration>): (versions: seq<int>)
    ensures |versions| == |ms| && forall i :: 0 <= i < |ms| ==> versions[i] == ms[i].version
  {
    if ms == [] then [] else [ms[0].version] + Versions(ms[1..])
  }

  function EntryVersions(entries: seq<Entry>): (versions: seq<int>)
    ensures |versions| == |entries| && forall i :: 0 <= i < |entries| ==> versions[i] == entries[i].version
  {
    if entries == [] then [] else [entries[0].version] + EntryVersions(entries[1..])
  }

  // ---- Sorting by version (the stable sort of the library) ----

  function Insert(m: Migration, sorted: seq<Migration>): seq<Migration> {
    if sorted == [] || m.version < sorted[0].version then [m] + sorted
    else [sorted[0]] + Insert(m, sorted[1..])
  }

  function Sort(ms: seq<Migration>): seq<Migration> {
    if ms == [] then [] else Insert(ms[|ms| - 1], Sort(ms[..|ms| - 1]))
  }

  // ---- The checks of the runners, as functions of what is left to check ----

  function SequenceError(seen: set<int>, ms: seq<Migration>): Option<int>
    decreases |ms|
  {
    if ms == [] then None
    else if ms[0].version < 1 || ms[0].version in seen then Some(ms[0].version)
    else SequenceError(seen + {ms[0].version}, ms[1..])
  }

  predicate Blank(s: string) {
    Trim(s) == ""
  }

  function HistoryError(seen: set<int>, entries: seq<Entry>): Option<int>
    decreases |entries|
  {
    if entries == [] then None
    else if entries[0].version < 1 || entries[0].version in seen || Blank(entries[0].name) || Blank(entries[0].fileName)
    then Some(entries[0].version)
    else HistoryError(seen + {entries[0].version}, entries[1..])
  }

  function PrefixError(ms: seq<Migration>, history: seq<Entry>): Option<Error> {
    if history == [] then None
    else if ms == [] then Some(OrderMismatch(None))
    else
      var record, m := history[0], ms[0];
      if record.version != m.version || record.name != m.name || record.fileName != m.fileName
      then Some(OrderMismatch(Some(record.version)))
      else if record.fingerprint != Digest(m.sql) then Some(FingerprintMismatch(record.version))
      else PrefixError(ms[1..], history[1..])
  }

  function ReadHistory<S>(engine: Engine<S>, db: Db<S>): Result<seq<Entry>, Error> {
    if !engine.tracked(db.schema) then Err(Unavailable)
    else match HistoryError({}, db.history)
      case Some(version) => Err(InvalidHistory(version))
      case None => Ok(db.history)
  }

  // ---- Executing ----

  /** The history row is refused without the table, or if its version or file name is taken. */
  predicate RowRefused<S>(engine: Engine<S>, db: Db<S>, m: Migration) {
    || !engine.tracked(db.schema)
    || exists i :: 0 <= i < |db.history| && (db.history[i].version == m.version || db.history[i].fileName == m.fileName)
  }

  /** One migration and its history row. */
  function ApplyOne<S>(engine: Engine<S>, db: Db<S>, m: Migration): Option<Db<S>> {
    match engine.execute(db.schema, m.sql)
    case None => None
    case Some(schema) =>
      if RowRefused(engine, Db(schema, db.history), m) then None else Some(Db(schema, db.history + [EntryOf(m)]))
  }

  /** What applying exactly these migrations gives, or the version that is refused. */
  function ApplyPending<S>(engine: Engine<S>, db: Db<S>, pending: seq<Migration>): Result<Db<S>, int>
    decreases |pending|
  {
    if pending == [] then Ok(db)
    else match ApplyOne(engine, db, pending[0])
      case None => Err(pending[0].version)
      case Some(next) => ApplyPending(engine, next, pending[1..])
  }

  // ---- A transaction, statement by statement ----

  datatype Statement = Sql(m: Migration) | Record(m: Migration)

  function Statements(ms: seq<Migration>): seq<Statement> {
    if ms == [] then [] else [Sql(ms[0]), Record(ms[0])] + Statements(ms[1..])
  }

  function Texts(ms: seq<Migration>): (texts: seq<Statement>)
    ensures |texts| == |ms| && forall i :: 0 <= i < |ms| ==> texts[i] == Sql(ms[i])
  {
    if ms == [] then [] else [Sql(ms[0])] + Texts(ms[1..])
  }

  /** What the connection sees and what is committed. Once a text has ended the transaction it is
      not open any more, and every further statement commits by itself. */
  datatype Tx<S> = Tx(visible: Db<S>, durable: Db<S>, open: bool)

  function Seen<S>(tx: Tx<S>, visible: Db<S>, commits: bool): Tx<S> {
    if commits || !tx.open then Tx(visible, visible, false) else Tx(visible, tx.durable, true)
  }

  function Perform<S>(engine: Engine<S>, tx: Tx<S>, statement: Statement): Option<Tx<S>> {
    var db, m := tx.visible, statement.m;
    match statement
    case Sql(_) =>
      (match engine.execute(db.schema, m.sql)
       case None => None
       case Some(schema) => Some(Seen(tx, Db(schema, db.history), engine.commits(m.sql))))
    case Record(_) => if RowRefused(engine, db, m) then None else Some(Seen(tx, Db(db.schema, db.history + [EntryOf(m)]), false))
  }

  /** A fault: the statement number `at`, COMMIT being the last one, fails for the caller, although
      the server may have applied it. */
  datatype Cut = Cut(at: nat, applied: bool)

  function Here(cut: Option<Cut>): Option<bool> {
    if cut.Some? && cut.value.at == 0 then Some(cut.value.applied) else None
  }

  function Later(cut: Option<Cut>): Option<Cut> {
    if cut.Some? && cut.value.at > 0 then Some(Cut(cut.value.at - 1, cut.value.applied)) else None
  }

  /** One statement as the caller sees it: the transaction after it, and whether it succeeded. */
  function Sent<S>(engine: Engine<S>, tx: Tx<S>, statement: Statement, lost: Option<bool>): (Tx<S>, bool) {
    if lost == Some(false) then (tx, false)
    else match Perform(engine, tx, statement)
      case None => (tx, false)
      case Some(next) => (next, lost == None)
  }

  /** The database after the transaction, and the version that was current if it failed. */
  datatype Ended<S> = Ended(db: Db<S>, failed: Option<int>)

  /** The statements and then COMMIT; a failure rolls back what is not committed. */
  function RunAll<S>(engine: Engine<S>, tx: Tx<S>, statements: seq<Statement>, cut: Option<Cut>, current: int): Ended<S>
    decreases |statements|
  {
    if statements == [] then
      match Here(cut)
      case None => Ended(tx.visible, None)
      case Some(applied) => Ended(if applied then tx.visible else tx.durable, Some(current))
    else
      var (next, done) := Sent(engine, tx, statements[0], Here(cut));
      var version := statements[0].m.version;
      if done then RunAll(engine, next, statements[1..], Later(cut), version) else Ended(next.durable, Some(version))
  }

  function Begun<S>(db: Db<S>): Tx<S> {
    Tx(db, db, true)
  }

  function TrackedRun<S>(engine: Engine<S>, db: Db<S>, ms: seq<Migration>, cut: Option<Cut>): (Db<S>, Result<TrackedResult, Error>) {
    var ordered := Sort(ms);
    if SequenceError({}, ordered).Some? then (db, Err(OrderMismatch(SequenceError({}, ordered))))
    else
      var read := if engine.tracked(db.schema) then ReadHistory(engine, db) else Ok([]);
      match read
      case Err(error) => (db, Err(error))
      case Ok(history) =>
        if |history| > |ordered| then (db, Err(OrderMismatch(None)))
        else if PrefixError(ordered, history).Some? then (db, Err(PrefixError(ordered, history).value))
        else Migrated(engine, db, ordered, history, cut)
  }

  /** The end of a run, once its checks are passed. */
  function Migrated<S>(engine: Engine<S>, db: Db<S>, ordered: seq<Migration>, history: seq<Entry>, cut: Option<Cut>)
    : (Db<S>, Result<TrackedResult, Error>)
    requires |history| <= |ordered|
  {
    var pending := ordered[|history|..];
    var result := TrackedResult(RunResult(Versions(ordered), Versions(pending), EntryVersions(history)), Fingerprints(ordered));
    if pending == [] then (db, Ok(result))
    else
      var ended := RunAll(engine, Begun(db), Statements(pending), cut, 0);
      (ended.db, if ended.failed.Some? then Err(ExecutionFailed(ended.failed.value)) else Ok(result))
  }

  // ---- The integrity checker ----

  predicate Unusable(seen: set<int>, m: Migration) {
    m.version < 1 || m.version in seen || Blank(m.name) || Blank(m.fileName) || Blank(m.sql)
  }

  function SetError(seen: set<int>, ms: seq<Migration>): Option<int>
    decreases |ms|
  {
    if ms == [] then None
    else if Unusable(seen, ms[0]) then Some(ms[0].version)
    else SetError(seen + {ms[0].version}, ms[1..])
  }

  datatype IntegrityReport = IntegrityReport(versions: seq<int>, fingerprints: seq<Digest>)

  /** `assertHistoryRecord` over both lists, which are equally long. */
  function RecordErrors(ms: seq<Migration>, history: seq<Entry>): Option<Error>
    requires |ms| == |history|
  {
    if ms == [] then None
    else if history[0].version != ms[0].version || history[0].name != ms[0].name || history[0].fileName != ms[0].fileName
    then Some(OrderMismatch(Some(ms[0].version)))
    else if history[0].fingerprint != Digest(ms[0].sql) then Some(FingerprintMismatch(ms[0].version))
    else RecordErrors(ms[1..], history[1..])
  }

  function Fingerprints(ms: seq<Migration>): (digests: seq<Digest>)
    ensures |digests| == |ms| && forall i :: 0 <= i < |ms| ==> digests[i] == Digest(ms[i].sql)
  {
    if ms == [] then [] else [Digest(ms[0].sql)] + Fingerprints(ms[1..])
  }

  function Inspect<S>(engine: Engine<S>, db: Db<S>, ms: seq<Migration>): Result<IntegrityReport, Error> {
    var ordered := Sort(ms);
    if SetError({}, ordered).Some? then Err(SetInvalid(SetError({}, ordered).value))
    else match ReadHistory(engine, db)
      case Err(_) => Err(Unavailable)
      case Ok(history) =>
        if |history| != |ordered| then Err(CountMismatch)
        else match RecordErrors(ordered, history)
          case Some(error) => Err(error)
          case None => Ok(IntegrityReport(Versions(ordered), Fingerprints(ordered)))
  }

  // ---- The plain runner ----

  function DuplicateError(seen: set<int>, ms: seq<Migration>): Option<int>
    decreases |ms|
  {
    if ms == [] then None
    else if ms[0].version in seen then Some(ms[0].version)
    else DuplicateError(seen + {ms[0].version}, ms[1..])
  }

  /** The migrations whose version is, or is not, one of the given ones. */
  function Select(ms: seq<Migration>, versions: set<int>, member: bool): seq<Migration> {
    if ms == [] then []
    else (if (ms[0].version in versions) == member then [ms[0]] else []) + Select(ms[1..], versions, member)
  }

  function ExecuteAll<S>(engine: Engine<S>, schema: S, ms: seq<Migration>): Result<S, int>
    decreases |ms|
  {
    if ms == [] then Ok(schema)
    else match engine.execute(schema, ms[0].sql)
      case None => Err(ms[0].version)
      case Some(next) => ExecuteAll(engine, next, ms[1..])
  }

  function AppliedError(applied: seq<int>): Option<int> {
    if applied == [] then None else if applied[0] < 1 then Some(applied[0]) else AppliedError(applied[1..])
  }

  /** `runVersionedMigrations`; the applied versions are the caller's. */
  function VersionedRun<S>(engine: Engine<S>, db: Db<S>, ms: seq<Migration>, applied: seq<int>, cut: Option<Cut>)
    : (Db<S>, Result<RunResult, Error>) {
    if DuplicateError({}, ms).Some? then (db, Err(DuplicateVersion(DuplicateError({}, ms).value)))
    else if AppliedError(applied).Some? then (db, Err(InvalidAppliedVersion(AppliedError(applied).value)))
    else
      var ordered, versions := Sort(ms), set v | v in applied;
      var pending := Select(ordered, versions, false);
      var result := RunResult(Versions(ordered), Versions(pending), Versions(Select(ordered, versions, true)));
      if pending == [] then (db, Ok(result))
      else
        var ended := RunAll(engine, Begun(db), Texts(pending), cut, 0);
        (ended.db, if ended.failed.Some? then Err(ExecutionFailed(ended.failed.value)) else Ok(result))
  }

  // ---- The programs ----

  method ValidateMigrationSequence(ms: seq<Migration>) returns (result: Result<seq<Migration>, Error>)
    ensures result == match SequenceError({}, Sort(ms)) case Some(v) => Err(OrderMismatch(Some(v))) case None => Ok(Sort(ms))
  {
    var ordered := Sort(ms);
    var versions: set<int> := {};
    var i := 0;
    while i < |ordered|
      invariant 0 <= i <= |ordered|
      invariant SequenceError({}, ordered) == SequenceError(versions, ordered[i..])
    {
      var migration := ordered[i];
      if migration.version < 1 || migration.version in versions {
        return Err(OrderMismatch(Some(migration.version)));
      }
      versions := versions + {migration.version};
      assert ordered[i..][1..] == ordered[i + 1..];
      i := i + 1;
    }
    return Ok(ordered);
  }

  method ValidateHistoryPrefix(ms: seq<Migration>, history: seq<Entry>) returns (error: Option<Error>)
    ensures error == if |history| > |ms| then Some(OrderMismatch(None)) else PrefixError(ms, history)
  {
    if |history| > |ms| {
      return Some(OrderMismatch(None));
    }
    var i := 0;
    while i < |history|
      invariant 0 <= i <= |history|
      invariant PrefixError(ms, history) == PrefixError(ms[i..], history[i..])
    {
      var record, migration := history[i], ms[i];
      if record.version != migration.version || record.name != migration.name || record.fileName != migration.fileName {
        return Some(OrderMismatch(Some(record.version)));
      }
      if record.fingerprint != Digest(migration.sql) {
        return Some(FingerprintMismatch(record.version));
      }
      assert ms[i..][1..] == ms[i + 1..] && history[i..][1..] == history[i + 1..];
      i := i + 1;
    }
    return None;
  }

  method NormalizeMigrations(ms: seq<Migration>) returns (result: Result<seq<Migration>, Error>)
    ensures result == match SetError({}, Sort(ms)) case Some(v) => Err(SetInvalid(v)) case None => Ok(Sort(ms))
  {
    var ordered := Sort(ms);
    var versions: set<int> := {};
    var i := 0;
    while i < |ordered|
      invariant 0 <= i <= |ordered|
      invariant SetError({}, ordered) == SetError(versions, ordered[i..])
    {
      if Unusable(versions, ordered[i]) {
        return Err(SetInvalid(ordered[i].version));
      }
      versions := versions + {ordered[i].version};
      assert ordered[i..][1..] == ordered[i + 1..];
      i := i + 1;
    }
    return Ok(ordered);
  }

  function StripOrders(rows: seq<Row>): (entries: seq<Entry>)
    ensures |entries| == |rows| && forall i :: 0 <= i < |rows| ==> entries[i] == rows[i].entry
  {
    if rows == [] then [] else [rows[0].entry] + StripOrders(rows[1..])
  }

  ghost predicate Increasing(rows: seq<Row>, nextOrder: nat) {
    && (forall i, j :: 0 <= i < j < |rows| ==> rows[i].appliedOrder < rows[j].appliedOrder)
    && (forall i :: 0 <= i < |rows| ==> 0 < rows[i].appliedOrder < nextOrder)
  }

  /** The committed schema and history, and a connection with its transaction. */
  class Database<S(!new)> {
    const engine: Engine<S>
    var schema: S
    var rows: seq<Row>
    var nextOrder: nat  // the identity sequence of applied_order: it keeps its value on rollback
    var seenSchema: S
    var seenRows: seq<Row>
    var open: bool

    ghost predicate Valid()
      reads this
    {
      Increasing(rows, nextOrder) && 0 < nextOrder && KeepsTable(engine) && (!engine.tracked(schema) ==> rows == [])
    }

    ghost predicate ValidTx()
      reads this
    {
      && Valid() && Increasing(seenRows, nextOrder) && (!engine.tracked(seenSchema) ==> seenRows == [])
      && (!open ==> schema == seenSchema && rows == seenRows)
    }

    function Contents(): Db<S>
      reads this
    {
      Db(schema, StripOrders(rows))
    }

    function Transaction(): Tx<S>
      reads this
    {
      Tx(Db(seenSchema, StripOrders(seenRows)), Contents(), open)
    }

    constructor (engine: Engine<S>, schema: S)
      requires KeepsTable(engine)
      ensures Valid() && this.engine == engine && Contents() == Db(schema, [])
    {
      this.engine, this.schema, rows, nextOrder := engine, schema, [], 1;
      seenSchema, seenRows, open := schema, [], false;
    }

    /** Includes the check that `applied_order` increases, which `Valid` makes redundant. */
    method ReadMigrationHistory() returns (result: Result<seq<Entry>, Error>)
      requires Valid()
      ensures result == ReadHistory(engine, Contents())
    {
      if !engine.tracked(schema) {
        return Err(Unavailable);
      }
      var records: seq<Entry> := [];
      var versions: set<int> := {};
      var previousOrder := 0;
      var i := 0;
      while i < |rows|
        invariant 0 <= i <= |rows|
        invariant records == Contents().history[..i]
        invariant previousOrder == if i == 0 then 0 else rows[i - 1].appliedOrder
        invariant HistoryError({}, Contents().history) == HistoryError(versions, Contents().history[i..])
      {
        var row := rows[i];
        assert Contents().history[i..][0] == row.entry;
        if row.entry.version < 1 || row.entry.version in versions || Blank(row.entry.name) || Blank(row.entry.fileName)
           || row.appliedOrder <= previousOrder
        {
          return Err(InvalidHistory(row.entry.version));
        }
        records := records + [row.entry];
        versions := versions + {row.entry.version};
        previousOrder := row.appliedOrder;
        assert Contents().history[i..][1..] == Contents().history[i + 1..];
        i := i + 1;
      }
      assert Contents().history[..i] == Contents().history;
      return Ok(records);
    }

    method Begin()
      requires Valid()
      modifies this`seenSchema, this`seenRows, this`open
      ensures ValidTx() && Contents() == old(Contents()) && Transaction() == Begun(Contents())
    {
      seenSchema, seenRows, open := schema, rows, true;
    }

    /** What the connection sees becomes visible to all if it is not, or not any more, in a transaction. */
    method Settle(commits: bool)
      requires Valid() && Increasing(seenRows, nextOrder) && (!engine.tracked(seenSchema) ==> seenRows == [])
      modifies this`schema, this`rows, this`open
      ensures ValidTx() && Transaction() == Seen(old(Transaction()), old(Transaction()).visible, commits)
    {
      if commits {
        open := false;
      }
      if !open {
        schema, rows := seenSchema, seenRows;
      }
    }

    method SendText(m: Migration) returns (accepted: bool)
      requires ValidTx()
      modifies this
      ensures ValidTx() && accepted == Perform(engine, old(Transaction()), Sql(m)).Some?
      ensures Transaction() == if accepted then Perform(engine, old(Transaction()), Sql(m)).value else old(Transaction())
    {
      hide Seen, StripOrders;
      var next := engine.execute(seenSchema, m.sql);
      if next == None {
        return false;
      }
      seenSchema := next.value;
      Settle(engine.commits(m.sql));
      SeenIgnoresVisible(old(Transaction()), Db(next.value, StripOrders(old(seenRows))), engine.commits(m.sql));
      return true;
    }

    method SendRecord(m: Migration) returns (accepted: bool)
      requires ValidTx()
      modifies this
      ensures ValidTx() && accepted == Perform(engine, old(Transaction()), Record(m)).Some?
      ensures Transaction() == if accepted then Perform(engine, old(Transaction()), Record(m)).value else old(Transaction())
    {
      hide Seen, StripOrders, RowRefused;
      if RowRefused(engine, Db(seenSchema, StripOrders(seenRows)), m) {
        return false;
      }
      TrackedIfAccepted(engine, Db(seenSchema, StripOrders(seenRows)), m);
      StripOrdersAppend(seenRows, Row(EntryOf(m), nextOrder));
      seenRows := seenRows + [Row(EntryOf(m), nextOrder)];
      nextOrder := nextOrder + 1;
      Settle(false);
      SeenIgnoresVisible(old(Transaction()), Db(seenSchema, StripOrders(seenRows)), false);
      return true;
    }

    /** `transaction.query`, which may fail for the caller although the server applied it. */
    method Send(statement: Statement, lost: Option<bool>) returns (done: bool)
      requires ValidTx()
      modifies this
      ensures ValidTx() && (Transaction(), done) == Sent(engine, old(Transaction()), statement, lost)
    {
      hide Perform;
      if lost == Some(false) {
        return false;
      }
      var accepted: bool;
      match statement {
        case Sql(m) => accepted := SendText(m);
        case Record(m) => accepted := SendRecord(m);
      }
      return accepted && lost == None;
    }

    /** COMMIT; false is a failure that the caller sees, after which it sends ROLLBACK. */
    method Finish(lost: Option<bool>) returns (done: bool)
      requires ValidTx()
      modifies this
      ensures Valid() && done == (lost == None)
      ensures Contents() == if lost == Some(false) then old(Contents()) else old(Transaction()).visible
    {
      if lost != Some(false) {
        schema, rows := seenSchema, seenRows;
      }
      open := false;
      return lost == None;
    }

    method RunTracked(ms: seq<Migration>, cut: Option<Cut>) returns (result: Result<TrackedResult, Error>)
      requires Valid()
      modifies this
      ensures Valid() && (Contents(), result) == TrackedRun(engine, old(Contents()), ms, cut)
    {
      var validated := ValidateMigrationSequence(ms);
      if validated.Err? {
        return Err(validated.error);
      }
      var ordered := validated.value;
      var history: seq<Entry> := [];
      if engine.tracked(schema) {
        var read := ReadMigrationHistory();
        if read.Err? {
          return Err(read.error);
        }
        history := read.value;
      }
      var mismatch := ValidateHistoryPrefix(ordered, history);
      if mismatch.Some? {
        return Err(mismatch.value);
      }
      var pending := ordered[|history|..];
      var run := TrackedResult(RunResult(Versions(ordered), Versions(pending), EntryVersions(history)), Fingerprints(ordered));
      if pending == [] {
        return Ok(run);
      }
      var failed := Migrate(pending, cut);
      if failed.Some? {
        return Err(ExecutionFailed(failed.value));
      }
      return Ok(run);
    }

    /** `access.transaction` around the loop over the pending migrations: each text, then its row. */
    method Migrate(pending: seq<Migration>, cut: Option<Cut>) returns (failed: Option<int>)
      requires Valid()
      modifies this
      ensures Valid() && Ended(Contents(), failed) == RunAll(engine, Begun(old(Contents())), Statements(pending), cut, 0)
    {
      hide Sent;
      Begin();
      var current, left, i := 0, cut, 0;
      while i < |pending|
        invariant 0 <= i <= |pending| && ValidTx()
        invariant RunAll(engine, Begun(old(Contents())), Statements(pending), cut, 0) ==
                  RunAll(engine, Transaction(), Statements(pending[i..]), left, current)
      {
        current := pending[i].version;
        StatementsOf(pending[i..]);
        assert pending[i..][1..] == pending[i + 1..];
        var done := Send(Sql(pending[i]), Here(left));
        if !done {
          return Some(current);
        }
        left := Later(left);
        done := Send(Record(pending[i]), Here(left));
        if !done {
          return Some(current);
        }
        left := Later(left);
        i := i + 1;
      }
      assert pending[i..] == [];
      var done := Finish(Here(left));
      return if done then None else Some(current);
    }

    method InspectMigrationIntegrity(ms: seq<Migration>) returns (result: Result<IntegrityReport, Error>)
      requires Valid()
      ensures result == Inspect(engine, Contents(), ms)
    {
      hide Sort, SetError, HistoryError, RecordErrors, Versions, Fingerprints, StripOrders;
      var normalized := NormalizeMigrations(ms);
      if normalized.Err? {
        return Err(normalized.error);
      }
      var ordered := normalized.value;
      var read := ReadMigrationHistory();
      if read.Err? {
        return Err(Unavailable);
      }
      var history := read.value;
      if |history| != |ordered| {
        return Err(CountMismatch);
      }
      var fingerprints := AssertHistoryRecords(ordered, history);
      if fingerprints.Err? {
        return Err(fingerprints.error);
      }
      return Ok(IntegrityReport(Versions(ordered), fingerprints.value));
    }

    method RunVersioned(ms: seq<Migration>, applied: seq<int>, cut: Option<Cut>) returns (result: Result<RunResult, Error>)
      requires Valid()
      modifies this
      ensures Valid() && (Contents(), result) == VersionedRun(engine, old(Contents()), ms, applied, cut)
    {
      hide Sort, Select, RunAll, DuplicateError, AppliedError;
      var duplicate := FindDuplicate(ms);
      if duplicate.Some? {
        return Err(DuplicateVersion(duplicate.value));
      }
      var invalid := FindInvalid(applied);
      if invalid.Some? {
        return Err(InvalidAppliedVersion(invalid.value));
      }
      var ordered, versions := Sort(ms), set v | v in applied;
      var pending := Select(ordered, versions, false);
      var run := RunResult(Versions(ordered), Versions(pending), Versions(Select(ordered, versions, true)));
      if pending == [] {
        return Ok(run);
      }
      var failed := Execute(pending, cut);
      if failed.Some? {
        return Err(ExecutionFailed(failed.value));
      }
      return Ok(run);
    }

    /** The transaction of the plain runner: the texts only. */
    method Execute(pending: seq<Migration>, cut: Option<Cut>) returns (failed: Option<int>)
      requires Valid()
      modifies this
      ensures Valid() && Ended(Contents(), failed) == RunAll(engine, Begun(old(Contents())), Texts(pending), cut, 0)
    {
      hide Sent;
      Begin();
      var current, left, i := 0, cut, 0;
      while i < |pending|
        invariant 0 <= i <= |pending| && ValidTx()
        invariant RunAll(engine, Begun(old(Contents())), Texts(pending), cut, 0) ==
                  RunAll(engine, Transaction(), Texts(pending[i..]), left, current)
      {
        current := pending[i].version;
        assert pending[i..][1..] == pending[i + 1..];
        var done := Send(Sql(pending[i]), Here(left));
        if !done {
          return Some(current);
        }
        left := Later(left);
        i := i + 1;
      }
      assert pending[i..] == [];
      var done := Finish(Here(left));
      return if done then None else Some(current);
    }
  }

  lemma {:induction false} StatementsOf(ms: seq<Migration>)
    requires ms != []
    ensures Statements(ms)[0] == Sql(ms[0]) && Statements(ms)[1] == Record(ms[0]) && Statements(ms)[1..][1..] == Statements(ms[1..])
    ensures |Statements(ms)| >= 2
  {
  }

  lemma SeenIgnoresVisible<S>(tx: Tx<S>, visible: Db<S>, commits: bool)
    ensures Seen(tx.(visible := visible), visible, commits) == Seen(tx, visible, commits)
  {
  }

  lemma TrackedIfAccepted<S>(engine: Engine<S>, db: Db<S>, m: Migration)
    requires !RowRefused(engine, db, m)
    ensures engine.tracked(db.schema)
  {
  }

  lemma {:induction false} StripOrdersAppend(rows: seq<Row>, row: Row)
    ensures StripOrders(rows + [row]) == StripOrders(rows) + [row.entry]
  {
  }

  method FindInvalid(applied: seq<int>) returns (invalid: Option<int>)
    ensures invalid == AppliedError(applied)
  {
    var i := 0;
    while i < |applied|
      invariant 0 <= i <= |applied| && AppliedError(applied) == AppliedError(applied[i..])
    {
      assert applied[i..][1..] == applied[i + 1..];
      if applied[i] < 1 {
        return Some(applied[i]);
      }
      i := i + 1;
    }
    return None;
  }

  /** The loop of the integrity checker. */
  method AssertHistoryRecords(ms: seq<Migration>, history: seq<Entry>) returns (result: Result<seq<Digest>, Error>)
    requires |ms| == |history|
    ensures result == match RecordErrors(ms, history) case Some(error) => Err(error) case None => Ok(Fingerprints(ms))
  {
    hide Fingerprints;
    var fingerprints: seq<Digest> := [];
    var i := 0;
    while i < |ms|
      invariant 0 <= i <= |ms|
      invariant |fingerprints| == i && forall j :: 0 <= j < i ==> fingerprints[j] == Digest(ms[j].sql)
      invariant RecordErrors(ms, history) == RecordErrors(ms[i..], history[i..])
    {
      assert ms[i..][1..] == ms[i + 1..] && history[i..][1..] == history[i + 1..];
      if history[i].version != ms[i].version || history[i].name != ms[i].name || history[i].fileName != ms[i].fileName {
        return Err(OrderMismatch(Some(ms[i].version)));
      }
      if history[i].fingerprint != Digest(ms[i].sql) {
        return Err(FingerprintMismatch(ms[i].version));
      }
      fingerprints := fingerprints + [Digest(ms[i].sql)];
      i := i + 1;
    }
    assert fingerprints == Fingerprints(ms);
    return Ok(fingerprints);
  }

  method FindDuplicate(ms: seq<Migration>) returns (duplicate: Option<int>)
    ensures duplicate == DuplicateError({}, ms)
  {
    var versions: set<int> := {};
    var i := 0;
    while i < |ms|
      invariant 0 <= i <= |ms|
      invariant DuplicateError({}, ms) == DuplicateError(versions, ms[i..])
    {
      assert ms[i..][1..] == ms[i + 1..];
      if ms[i].version in versions {
        return Some(ms[i].version);
      }
      versions := versions + {ms[i].version};
      i := i + 1;
    }
    return None;
  }
}
