/** `withOrganizationTransaction` over `transaction` as the program it is (packages/database/src),
    on the client that the pool gave it, proved to go through the phases of `TenantPool`. */
module TenantTransaction {
  import opened Common
  import opened TenantPool

  /** How each command of the wrapper ends, and what the operation does: its queries, then return or throw. */
  datatype Script = Script(begin: Fate, role: Fate, context: Fate, read: Fate, queries: seq<Fate>, throws: bool,
                           commit: Fate, rollback: Fate)

  function FateOf(script: Script, phase: Phase): Fate {
    match phase
    case Opening => script.begin
    case SettingRole => script.role
    case SettingContext => script.context
    case Checking => script.read
    case Committing => script.commit
    case _ => script.rollback
  }

  function AfterQueries(session: Session, queries: seq<Fate>): Session
    decreases |queries|
  {
    if queries == [] then session else Execute(AfterQueries(session, queries[..|queries| - 1]), Statement, queries[|queries| - 1])
  }

  lemma IssueLeadsOn(call: Call, session: Session, fate: Fate)
    requires !call.phase.Running? && !call.phase.Releasing?
    ensures Remaining(NextPhase(call, session, fate)) < Remaining(call.phase)
  {
  }

  datatype Released = Released(session: Session, committed: bool)

  /** The phases of a call, one after the other, up to its release. */
  ghost function Drive(call: Call, session: Session, script: Script): Released
    decreases Remaining(call.phase)
  {
    match call.phase
    case Releasing(committed) => Released(session, committed)
    case Running => Drive(call.(phase := if script.throws then RollingBack else Committing), AfterQueries(session, script.queries), script)
    case phase =>
      IssueLeadsOn(call, session, FateOf(script, phase));
      Drive(call.(phase := NextPhase(call, session, FateOf(script, phase))), Execute(session, NextCommand(call), FateOf(script, phase)), script)
  }

  lemma {:induction false} DriveStep(call: Call, session: Session, script: Script)
    requires !call.phase.Running? && !call.phase.Releasing?
    ensures Drive(call, session, script) ==
            Drive(call.(phase := NextPhase(call, session, FateOf(script, call.phase))),
                  Execute(session, NextCommand(call), FateOf(script, call.phase)), script)
  {
    hide NextPhase, Execute, NextCommand;
  }

  class Client {
    var session: Session

    method Query(command: Command, fate: Fate) returns (ok: bool)
      modifies this
      ensures session == Execute(old(session), command, fate) && (ok <==> fate == Done)
    {
      session := Execute(session, command, fate);
      return fate == Done;
    }

    /** The callback of `withOrganizationTransaction`; false is a throw. */
    method InContext(call: Call, script: Script) returns (returned: bool)
      requires call.phase == SettingRole
      modifies this
      ensures Drive(call, old(session), script) == Drive(call.(phase := if returned then Committing else RollingBack), session, script)
    {
      hide Drive, Execute;
      DriveStep(call, session, script);
      var ok := Query(SetRole, script.role);
      if !ok {
        return false;
      }
      DriveStep(call.(phase := SettingContext), session, script);
      ok := Query(SetContext(call.organization), script.context);
      if !ok {
        return false;
      }
      DriveStep(call.(phase := Checking), session, script);
      var currentOrganization := session.organization;
      ok := Query(Statement, script.read);
      if !ok {
        return false;
      }
      if currentOrganization != Some(call.organization) {
        return false;
      }
      OperationStep(call.(phase := Running), session, script);
      ghost var before := session;
      var i := 0;
      while i < |script.queries|
        invariant i <= |script.queries| && session == AfterQueries(before, script.queries[..i])
      {
        var _ := Query(Statement, script.queries[i]);
        assert script.queries[..i + 1][..i] == script.queries[..i];
        i := i + 1;
      }
      assert script.queries[..i] == script.queries;
      return !script.throws;
    }

    /** `transaction`, from BEGIN to the release of the client. */
    method Transaction(call: Call, script: Script) returns (committed: bool)
      requires call.phase == Opening
      modifies this
      ensures Drive(call, old(session), script) == Released(session, committed)
    {
      hide Execute;
      DriveStep(call, session, script);
      var started := Query(Begin, script.begin);
      if !started {
        return false;
      }
      var returned := InContext(call.(phase := SettingRole), script);
      if returned {
        DriveStep(call.(phase := Committing), session, script);
        committed := Query(Commit, script.commit);
        if committed {
          return true;
        }
      }
      DriveStep(call.(phase := RollingBack), session, script);
      var _ := Query(Rollback, script.rollback);
      return false;
    }
  }

  lemma OperationStep(call: Call, session: Session, script: Script)
    requires call.phase == Running
    ensures Drive(call, session, script) ==
            Drive(call.(phase := if script.throws then RollingBack else Committing), AfterQueries(session, script.queries), script)
  {
  }

  /** Whatever fails, a client that came clean from the pool goes back clean if the ROLLBACK takes
      effect. */
  lemma {:induction false} ReleasedClean(call: Call, session: Session, script: Script)
    requires call.phase.Opening? || call.phase.Releasing? ==> Clean(session)
    requires script.rollback == Done || script.rollback == Lost(true)
    ensures Clean(Drive(call, session, script).session)
    decreases Remaining(call.phase)
  {
    match call.phase
    case Releasing(_) =>
    case Running =>
      OperationStep(call, session, script);
      ReleasedClean(call.(phase := if script.throws then RollingBack else Committing), AfterQueries(session, script.queries), script);
    case phase =>
      IssueLeadsOn(call, session, FateOf(script, phase));
      DriveStep(call, session, script);
      hide Drive;
      ReleasedClean(call.(phase := NextPhase(call, session, FateOf(script, phase))),
        Execute(session, NextCommand(call), FateOf(script, phase)), script);
  }

  /** A call reports success only if its operation returned and COMMIT was done. */
  lemma {:induction false} SuccessNeedsCommit(call: Call, session: Session, script: Script)
    requires call.phase != Releasing(true)
    ensures Drive(call, session, script).committed ==> script.commit == Done && (call.phase != Committing ==> !script.throws)
    decreases Remaining(call.phase)
  {
    hide Execute;
    match call.phase
    case Releasing(_) =>
    case Running =>
      OperationStep(call, session, script);
      if !script.throws {
        SuccessNeedsCommit(call.(phase := Committing), AfterQueries(session, script.queries), script);
      } else {
        ThrowNeverCommits(call.(phase := RollingBack), AfterQueries(session, script.queries), script);
      }
    case Committing =>
      DriveStep(call, session, script);
      if script.commit != Done {
        ThrowNeverCommits(call.(phase := RollingBack), Execute(session, Commit, script.commit), script);
      }
    case phase =>
      IssueLeadsOn(call, session, FateOf(script, phase));
      DriveStep(call, session, script);
      hide Drive;
      SuccessNeedsCommit(call.(phase := NextPhase(call, session, FateOf(script, phase))),
        Execute(session, NextCommand(call), FateOf(script, phase)), script);
  }

  lemma {:induction false} ThrowNeverCommits(call: Call, session: Session, script: Script)
    requires call.phase == RollingBack
    ensures !Drive(call, session, script).committed
  {
    DriveStep(call, session, script);
  }

  // ---- What the answer tells ----

  /** The wrapper got through to the operation. */
  predicate Wrapped(script: Script) {
    script.begin == Done && script.role == Done && script.context == Done && script.read == Done
  }

  /** The server has committed the operation's work: a COMMIT was applied in an open transaction. */
  ghost predicate Kept(call: Call, session: Session, script: Script)
    decreases Remaining(call.phase)
  {
    match call.phase
    case Releasing(_) => false
    case RollingBack => false
    case Committing => session.tx == Open && (script.commit == Done || script.commit == Lost(true))
    case Running => Kept(call.(phase := if script.throws then RollingBack else Committing), AfterQueries(session, script.queries), script)
    case phase =>
      IssueLeadsOn(call, session, FateOf(script, phase));
      Kept(call.(phase := NextPhase(call, session, FateOf(script, phase))), Execute(session, NextCommand(call), FateOf(script, phase)), script)
  }

  lemma {:induction false} KeptStep(call: Call, session: Session, script: Script)
    requires call.phase.Opening? || call.phase.SettingRole? || call.phase.SettingContext? || call.phase.Checking?
    ensures Kept(call, session, script) ==
            Kept(call.(phase := NextPhase(call, session, FateOf(script, call.phase))),
                 Execute(session, NextCommand(call), FateOf(script, call.phase)), script)
  {
    hide NextPhase, Execute, NextCommand;
  }

  /** A transaction is aborted exactly by a refused query. */
  lemma {:induction false} AbortedIffRefused(session: Session, queries: seq<Fate>)
    requires session.tx == Open
    ensures AfterQueries(session, queries) == session.(tx := if Refused in queries then Aborted else Open)
    decreases |queries|
  {
    if queries != [] {
      AbortedIffRefused(session, queries[..|queries| - 1]);
      assert queries == queries[..|queries| - 1] + [queries[|queries| - 1]];
    }
  }

  /** Up to the operation: either it starts in an open transaction under its own organization, or the
      call fails and nothing of it is kept. */
  lemma {:induction false} UpToOperation(call: Call, session: Session, script: Script)
    requires call.phase == Opening && session.tx != Aborted
    ensures var running := call.(phase := Running); var open := Session(Open, Some(call.organization), true);
            Wrapped(script) ==>
              Drive(call, session, script) == Drive(running, open, script) && Kept(call, session, script) == Kept(running, open, script)
    ensures !Wrapped(script) ==> !Drive(call, session, script).committed && !Kept(call, session, script)
  {
    DriveStep(call, session, script);
    KeptStep(call, session, script);
    if script.begin == Done {
      var one := session.(tx := Open);
      DriveStep(call.(phase := SettingRole), one, script);
      KeptStep(call.(phase := SettingRole), one, script);
      if script.role == Done {
        var two := one.(runtimeRole := true);
        DriveStep(call.(phase := SettingContext), two, script);
        KeptStep(call.(phase := SettingContext), two, script);
        if script.context == Done {
          var three := two.(organization := Some(call.organization));
          DriveStep(call.(phase := Checking), three, script);
          KeptStep(call.(phase := Checking), three, script);
          if script.read != Done {
            ThrowNeverCommits(call.(phase := RollingBack), Execute(three, Statement, script.read), script);
          }
        } else {
          ThrowNeverCommits(call.(phase := RollingBack), Execute(two, SetContext(call.organization), script.context), script);
        }
      } else {
        ThrowNeverCommits(call.(phase := RollingBack), Execute(one, SetRole, script.role), script);
      }
    }
    hide Drive, Kept, Execute;
  }

  /** What is reported and what is kept, for every script. */
  lemma {:induction false} ReportedAndKeptIff(call: Call, session: Session, script: Script)
    requires call.phase == Opening && session.tx != Aborted
    ensures Drive(call, session, script).committed <==> Wrapped(script) && !script.throws && script.commit == Done
    ensures Kept(call, session, script) <==>
            Wrapped(script) && !script.throws && Refused !in script.queries && (script.commit == Done || script.commit == Lost(true))
  {
    UpToOperation(call, session, script);
    if Wrapped(script) {
      var open := Session(Open, Some(call.organization), true);
      AbortedIffRefused(open, script.queries);
      OperationStep(call.(phase := Running), open, script);
      var after := AfterQueries(open, script.queries);
      if script.throws {
        ThrowNeverCommits(call.(phase := RollingBack), after, script);
      } else {
        DriveStep(call.(phase := Committing), after, script);
        if script.commit != Done {
          ThrowNeverCommits(call.(phase := RollingBack), Execute(after, Commit, script.commit), script);
        }
      }
    }
  }

  /** A success that is reported is real exactly if no query of the operation was refused; and a
      call that reports a failure has kept something exactly if the answer to COMMIT was lost, after
      an operation that returned without a refused query. */
  lemma {:induction false} ReportIsTrueIff(call: Call, session: Session, script: Script)
    requires call.phase == Opening && session.tx != Aborted
    ensures Drive(call, session, script).committed ==> (Kept(call, session, script) <==> Refused !in script.queries)
    ensures !Drive(call, session, script).committed ==>
              (Kept(call, session, script) <==>
               Wrapped(script) && !script.throws && Refused !in script.queries && script.commit == Lost(true))
  {
    ReportedAndKeptIff(call, session, script);
  }

  /** A client that comes to a call outside a transaction is released outside one exactly if the
      answer to BEGIN was not lost after the server had applied it. */
  lemma {:induction false} ReleasedOutsideTransactionIff(call: Call, session: Session, script: Script)
    requires call.phase == Opening && session.tx == NoTx && (script.rollback == Done || script.rollback == Lost(true))
    ensures Drive(call, session, script).session.tx == NoTx <==> script.begin != Lost(true)
  {
    DriveStep(call, session, script);
    if script.begin == Done {
      StartedIsEnded(call.(phase := SettingRole), session.(tx := Open), script);
    }
    hide NextCommand;
  }

  lemma {:induction false} StartedIsEnded(call: Call, session: Session, script: Script)
    requires !call.phase.Opening? && (call.phase.Releasing? ==> session.tx == NoTx)
    requires script.rollback == Done || script.rollback == Lost(true)
    ensures Drive(call, session, script).session.tx == NoTx
    decreases Remaining(call.phase)
  {
    if call.phase == Running {
      OperationStep(call, session, script);
      StartedIsEnded(call.(phase := if script.throws then RollingBack else Committing), AfterQueries(session, script.queries), script);
    } else if !call.phase.Releasing? {
      var fate := FateOf(script, call.phase);
      IssueLeadsOn(call, session, fate);
      DriveStep(call, session, script);
      hide Drive;
      StartedIsEnded(call.(phase := NextPhase(call, session, fate)), Execute(session, NextCommand(call), fate), script);
    }
  }

  /** An operation that returns although one of its queries was refused is reported as committed,
      while its transaction was aborted: COMMIT then ends it as a rollback. */
  lemma SwallowedFailureIsReportedCommitted(organization: string, slot: nat)
    ensures var script := Script(Done, Done, Done, Done, [Refused], false, Done, Done);
            && AfterQueries(Session(Open, Some(organization), true), script.queries).tx == Aborted
            && Drive(Call(organization, slot, Opening), Session(NoTx, None, false), script).committed
            && !Kept(Call(organization, slot, Opening), Session(NoTx, None, false), script)
  {
    var script := Script(Done, Done, Done, Done, [Refused], false, Done, Done);
    AbortedIffRefused(Session(Open, Some(organization), true), script.queries);
    ReportedAndKeptIff(Call(organization, slot, Opening), Session(NoTx, None, false), script);
  }
}
