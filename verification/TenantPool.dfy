/** Concurrent `withOrganizationTransaction` calls (packages/database/src/tenant-runtime.ts) over the
    transactions of `createPostgreSqlAccess` (packages/database/src/index.ts), and the pool model of
    tools/spikes/p1.9-models.ts that they refine. */
module TenantPool {
  import opened Common

  // ---- The pool model: a slot is busy for one organization, or free ----

  datatype Slot = Slot(organization: Option<string>, busy: bool)

  predicate Free(slot: Slot) {
    !slot.busy && slot.organization == None
  }

  ghost predicate Enters(before: seq<Slot>, after: seq<Slot>, i: nat, organization: string) {
    i < |before| && Free(before[i]) && after == before[i := Slot(Some(organization), true)]
  }

  ghost predicate Leaves(before: seq<Slot>, after: seq<Slot>, i: nat) {
    i < |before| && before[i].busy && after == before[i := Slot(None, false)]
  }

  datatype PoolError = BlankOrganization | SizeNotPositive | NoFreeSlot

  class TransactionContextPoolModel {
    var slots: seq<Slot>

    ghost predicate Valid()
      reads this
    {
      forall i :: 0 <= i < |slots| ==> (slots[i].busy <==> slots[i].organization.Some?)
    }

    constructor (size: nat)
      requires size >= 1
      ensures Valid() && |slots| == size && forall i :: 0 <= i < size ==> Free(slots[i])
    {
      slots := seq(size, _ => Slot(None, false));
    }

    /** `run` up to its operation: the first free slot is taken for the organization. */
    method Enter(organizationValue: string) returns (taken: Result<nat, PoolError>)
      requires Valid()
      modifies this
      ensures Valid()
      ensures taken.Ok? <==> Trim(organizationValue) != "" && exists i :: 0 <= i < |old(slots)| && Free(old(slots)[i])
      ensures taken.Ok? ==> Enters(old(slots), slots, taken.value, Trim(organizationValue))
                            && forall i :: 0 <= i < taken.value ==> old(slots)[i].busy
      ensures taken.Err? ==> slots == old(slots) && (taken.error == BlankOrganization <==> Trim(organizationValue) == "")
    {
      var organization := Trim(organizationValue);
      if organization == "" {
        return Err(BlankOrganization);
      }
      var i := 0;
      while i < |slots| && slots[i].busy
        invariant i <= |slots| && forall j :: 0 <= j < i ==> slots[j].busy
      {
        i := i + 1;
      }
      if i == |slots| {
        return Err(NoFreeSlot);
      }
      slots := slots[i := Slot(Some(organization), true)];
      return Ok(i);
    }

    /** The `finally` of `run`. */
    method Leave(i: nat)
      requires Valid() && i < |slots| && slots[i].busy
      modifies this
      ensures Valid() && Leaves(old(slots), slots, i)
    {
      slots := slots[i := Slot(None, false)];
    }
  }

  // ---- A database session ----

  datatype Tx = NoTx | Open | Aborted

  /** The session as the server sees it; organization and role are local to its transaction. */
  datatype Session = Session(tx: Tx, organization: Option<string>, runtimeRole: bool)

  datatype Command = Begin | SetRole | SetContext(organization: string) | Statement | Commit | Rollback

  /** How a command ends: done; refused by the server; or the client sees a failure although the
      server may have applied it. */
  datatype Fate = Done | Refused | Lost(applied: bool)

  function Applied(session: Session, command: Command): Session {
    match command
    case Begin => session.(tx := Open)
    case SetRole => if session.tx == Open then session.(runtimeRole := true) else session
    case SetContext(organization) => if session.tx == Open then session.(organization := Some(organization)) else session
    case Statement => session
    case Commit => Session(NoTx, None, false)
    case Rollback => Session(NoTx, None, false)
  }

  /** In an aborted transaction only its end is accepted. */
  predicate Accepts(session: Session, command: Command) {
    session.tx == Aborted ==> command.Commit? || command.Rollback?
  }

  predicate FateAllowed(session: Session, command: Command, fate: Fate) {
    fate == Done || fate == Lost(true) ==> Accepts(session, command)
  }

  function Execute(session: Session, command: Command, fate: Fate): Session {
    if fate == Done || fate == Lost(true) then Applied(session, command)
    else if fate == Refused && session.tx == Open then session.(tx := Aborted)
    else session
  }

  // ---- A call of withOrganizationTransaction ----

  datatype Phase =
    | Opening | SettingRole | SettingContext | Checking | Running | Committing | RollingBack
    | Releasing(committed: bool)

  datatype Call = Call(organization: string, slot: nat, phase: Phase)

  type Id = nat

  datatype Connection = Connection(session: Session, holder: Option<Id>)

  /** `begun` are all calls that ever got a client, `releases` the calls that released one, in order. */
  datatype State = State(connections: seq<Connection>, calls: map<Id, Call>, begun: set<Id>, releases: seq<Id>)

  datatype Move =
    | Connect(c: Id, slot: nat, organization: string)
    | Issue(c: Id, fate: Fate)       // the next command of the wrapper
    | Query(c: Id, fate: Fate)       // a query of the operation
    | Return(c: Id)
    | Throw(c: Id)
    | Release(c: Id)
    | Direct(slot: nat, fate: Fate)  // `access.query`, on a client that is free

  function NextCommand(call: Call): Command {
    match call.phase
    case Opening => Begin
    case SettingRole => SetRole
    case SettingContext => SetContext(call.organization)
    case Checking => Statement
    case Committing => Commit
    case RollingBack => Rollback
    case _ => Statement
  }

  /** Where the wrapper goes after its command; `session` is what a completed read saw. */
  function NextPhase(call: Call, session: Session, fate: Fate): Phase {
    if call.phase == RollingBack then Releasing(false)
    else if call.phase == Opening then if fate == Done then SettingRole else Releasing(false)
    else if fate != Done then RollingBack
    else match call.phase
      case SettingRole => SettingContext
      case SettingContext => Checking
      case Checking => if session.organization == Some(call.organization) then Running else RollingBack
      case Committing => Releasing(true)
      case other => other
  }

  predicate HasCall(s: State, c: Id) {
    c in s.calls && s.calls[c].slot < |s.connections|
  }

  predicate Possible(s: State, move: Move) {
    match move
    case Connect(c, slot, _) => c !in s.begun && slot < |s.connections| && s.connections[slot].holder == None
    case Issue(c, fate) =>
      HasCall(s, c) && !s.calls[c].phase.Running? && !s.calls[c].phase.Releasing?
      && FateAllowed(s.connections[s.calls[c].slot].session, NextCommand(s.calls[c]), fate)
    case Query(c, fate) =>
      HasCall(s, c) && s.calls[c].phase.Running? && FateAllowed(s.connections[s.calls[c].slot].session, Statement, fate)
    case Return(c) => HasCall(s, c) && s.calls[c].phase.Running?
    case Throw(c) => HasCall(s, c) && s.calls[c].phase.Running?
    case Release(c) => HasCall(s, c) && s.calls[c].phase.Releasing?
    case Direct(slot, fate) =>
      slot < |s.connections| && s.connections[slot].holder == None && FateAllowed(s.connections[slot].session, Statement, fate)
  }

  /** The client that a move uses. */
  function SlotOf(s: State, move: Move): nat
    requires Possible(s, move)
  {
    match move
    case Connect(_, slot, _) => slot
    case Direct(slot, _) => slot
    case Issue(c, _) => s.calls[c].slot
    case Query(c, _) => s.calls[c].slot
    case Return(c) => s.calls[c].slot
    case Throw(c) => s.calls[c].slot
    case Release(c) => s.calls[c].slot
  }

  function NextConnection(s: State, move: Move): Connection
    requires Possible(s, move)
  {
    var connection := s.connections[SlotOf(s, move)];
    match move
    case Connect(c, _, _) => connection.(holder := Some(c))
    case Issue(c, fate) => connection.(session := Execute(connection.session, NextCommand(s.calls[c]), fate))
    case Query(_, fate) => connection.(session := Execute(connection.session, Statement, fate))
    case Direct(_, fate) => connection.(session := Execute(connection.session, Statement, fate))
    case Release(_) => connection.(holder := None)
    case _ => connection
  }

  function NextCalls(s: State, move: Move): map<Id, Call>
    requires Possible(s, move)
  {
    match move
    case Connect(c, slot, organization) => s.calls[c := Call(organization, slot, Opening)]
    case Issue(c, fate) => s.calls[c := s.calls[c].(phase := NextPhase(s.calls[c], s.connections[s.calls[c].slot].session, fate))]
    case Return(c) => s.calls[c := s.calls[c].(phase := Committing)]
    case Throw(c) => s.calls[c := s.calls[c].(phase := RollingBack)]
    case Release(c) => s.calls - {c}
    case _ => s.calls
  }

  function Next(s: State, move: Move): State
    requires Possible(s, move)
  {
    State(s.connections[SlotOf(s, move) := NextConnection(s, move)], NextCalls(s, move),
          if move.Connect? then s.begun + {move.c} else s.begun, if move.Release? then s.releases + [move.c] else s.releases)
  }

  // ---- The invariants ----

  /** What a call knows about its session, with no assumption about ROLLBACK. */
  ghost predicate PhaseInv(call: Call, session: Session) {
    match call.phase
    case SettingRole => session.tx != NoTx
    case SettingContext => session.tx != NoTx && session.runtimeRole
    case Checking => session.tx != NoTx && session.runtimeRole && session.organization == Some(call.organization)
    case Running => session.tx != NoTx && session.runtimeRole && session.organization == Some(call.organization)
    case Committing => session.tx != NoTx
    case _ => true
  }

  ghost predicate CallInv(s: State, c: Id) {
    HasCall(s, c) && s.connections[s.calls[c].slot].holder == Some(c) && PhaseInv(s.calls[c], s.connections[s.calls[c].slot].session)
  }

  ghost predicate HolderInv(s: State, i: nat)
    requires i < |s.connections|
  {
    s.connections[i].holder.Some? ==> s.connections[i].holder.value in s.calls && s.calls[s.connections[i].holder.value].slot == i
  }

  ghost predicate Accounted(s: State) {
    && (forall c :: c in s.begun <==> c in s.calls || c in s.releases)
    && (forall i :: 0 <= i < |s.releases| ==> s.releases[i] !in s.calls)
    && Distinct(s.releases)
  }

  ghost predicate Inv(s: State) {
    && (forall c :: c in s.calls ==> CallInv(s, c))
    && (forall i :: 0 <= i < |s.connections| ==> HolderInv(s, i))
    && Accounted(s)
  }

  /** Clean: no organization and not the runtime role. */
  ghost predicate Clean(session: Session) {
    session.organization == None && !session.runtimeRole
  }

  /** The session of a client that is free, or that its call has not used yet or not any more. */
  ghost predicate CleanAt(s: State, i: nat)
    requires i < |s.connections|
  {
    var holder := s.connections[i].holder;
    holder == None || (holder.value in s.calls && (s.calls[holder.value].phase.Opening? || s.calls[holder.value].phase.Releasing?))
    ==> Clean(s.connections[i].session)
  }

  ghost predicate CleanInv(s: State) {
    forall i :: 0 <= i < |s.connections| ==> CleanAt(s, i)
  }

  /** The assumption: a ROLLBACK that is issued takes effect, even if its answer is lost. */
  ghost predicate RollbackWorks(s: State, move: Move)
    requires Possible(s, move)
  {
    move.Issue? && s.calls[move.c].phase == RollingBack ==> move.fate == Done || move.fate == Lost(true)
  }

  ghost predicate Init(s: State) {
    && s.calls == map[] && s.begun == {} && s.releases == []
    && forall i :: 0 <= i < |s.connections| ==> s.connections[i] == Connection(Session(NoTx, None, false), None)
  }

  lemma IssueKeepsPhase(call: Call, session: Session, fate: Fate)
    requires PhaseInv(call, session) && FateAllowed(session, NextCommand(call), fate) && !call.phase.Running? && !call.phase.Releasing?
    ensures PhaseInv(call.(phase := NextPhase(call, session, fate)), Execute(session, NextCommand(call), fate))
  {
  }

  lemma MovedCall(s: State, move: Move)
    requires Inv(s) && Possible(s, move) && !move.Direct? && !move.Release?
    ensures CallInv(Next(s, move), move.c)
  {
    if move.Issue? {
      var call := s.calls[move.c];
      assert CallInv(s, move.c);
      IssueKeepsPhase(call, s.connections[call.slot].session, move.fate);
      hide NextPhase, Execute, NextCommand, PhaseInv;
    } else if !move.Connect? {
      assert CallInv(s, move.c);
    }
  }

  lemma OtherCall(s: State, move: Move, c: Id)
    requires Inv(s) && Possible(s, move) && c in s.calls && (move.Direct? || move.c != c)
    ensures CallInv(Next(s, move), c) && Next(s, move).calls[c] == s.calls[c]
  {
    assert CallInv(s, c);
    if !move.Direct? && !move.Connect? {
      assert CallInv(s, move.c);
    }
    hide PhaseInv, NextPhase, Execute, NextCommand;
  }

  lemma HoldersStay(s: State, move: Move, i: nat)
    requires Inv(s) && Possible(s, move) && i < |s.connections|
    ensures HolderInv(Next(s, move), i)
  {
    assert HolderInv(s, i);
    if !move.Direct? && !move.Connect? {
      assert CallInv(s, move.c);
    }
    hide PhaseInv, NextPhase, Execute, NextCommand;
  }

  lemma StaysAccounted(s: State, move: Move)
    requires Accounted(s) && Possible(s, move)
    ensures Accounted(Next(s, move))
  {
    hide NextPhase, Execute, NextCommand, NextConnection;
  }

  lemma NextKeepsInv(s: State, move: Move)
    requires Inv(s) && Possible(s, move)
    ensures Inv(Next(s, move))
  {
    var next := Next(s, move);
    StaysAccounted(s, move);
    forall c | c in next.calls
      ensures CallInv(next, c)
    {
      if move.Direct? || move.c != c {
        OtherCall(s, move, c);
      } else {
        MovedCall(s, move);
      }
    }
    forall i: nat | i < |next.connections|
      ensures HolderInv(next, i)
    {
      HoldersStay(s, move, i);
    }
  }

  lemma StaysCleanAt(s: State, move: Move, i: nat)
    requires Inv(s) && CleanInv(s) && Possible(s, move) && RollbackWorks(s, move) && i < |s.connections|
    ensures CleanAt(Next(s, move), i)
  {
    assert CleanAt(s, i) && HolderInv(s, i);
    if !move.Direct? && !move.Connect? {
      assert CallInv(s, move.c);
    }
  }

  // ---- Runs ----

  ghost predicate IsRun(states: seq<State>, moves: seq<Move>) {
    && |states| == |moves| + 1 && Init(states[0])
    && forall i :: 0 <= i < |moves| ==> Possible(states[i], moves[i]) && states[i + 1] == Next(states[i], moves[i])
  }

  ghost predicate RollbacksWork(states: seq<State>, moves: seq<Move>)
    requires IsRun(states, moves)
  {
    forall i :: 0 <= i < |moves| ==> RollbackWorks(states[i], moves[i])
  }

  lemma {:induction false} RunKeepsInv(states: seq<State>, moves: seq<Move>, k: nat)
    requires IsRun(states, moves) && k < |states|
    ensures Inv(states[k])
  {
    if k > 0 {
      RunKeepsInv(states, moves, k - 1);
      NextKeepsInv(states[k - 1], moves[k - 1]);
    }
  }

  lemma {:induction false} RunKeepsClean(states: seq<State>, moves: seq<Move>, k: nat)
    requires IsRun(states, moves) && k < |states| && RollbacksWork(states, moves)
    ensures CleanInv(states[k])
  {
    if k > 0 {
      RunKeepsClean(states, moves, k - 1);
      RunKeepsInv(states, moves, k - 1);
      assert RollbackWorks(states[k - 1], moves[k - 1]);
      hide Next, Possible, RollbackWorks, CleanAt;
      ConnectionsStay(states[k - 1], moves[k - 1]);
      forall i: nat | i < |states[k].connections|
        ensures CleanAt(states[k], i)
      {
        StaysCleanAt(states[k - 1], moves[k - 1], i);
      }
    }
  }

  lemma ConnectionsStay(s: State, move: Move)
    requires Possible(s, move)
    ensures |Next(s, move).connections| == |s.connections|
  {
  }

  /** In any run, with failures anywhere and whether or not ROLLBACK takes effect: a query of an
      operation that the server executes runs in an open transaction, under the runtime role and the
      operation's own organization, on a client held by its call alone. */
  lemma QueryRunsUnderOwnOrganization(states: seq<State>, moves: seq<Move>, k: nat)
    requires IsRun(states, moves) && k < |moves|
    requires moves[k].Query? && (moves[k].fate == Done || moves[k].fate == Lost(true))
    ensures var call := states[k].calls[moves[k].c];
            && call.slot < |states[k].connections|
            && states[k].connections[call.slot] == Connection(Session(Open, Some(call.organization), true), Some(moves[k].c))
  {
    RunKeepsInv(states, moves, k);
    assert CallInv(states[k], moves[k].c);
  }

  /** Two live calls never share a client. */
  lemma ClientsAreNotShared(states: seq<State>, moves: seq<Move>, k: nat, c: Id, d: Id)
    requires IsRun(states, moves) && k < |states| && c != d && c in states[k].calls && d in states[k].calls
    ensures states[k].calls[c].slot != states[k].calls[d].slot
  {
    RunKeepsInv(states, moves, k);
    assert CallInv(states[k], c) && CallInv(states[k], d);
  }

  /** Every call that got a client holds exactly one, or has released it, exactly once. */
  lemma ReleasedExactlyOnce(states: seq<State>, moves: seq<Move>, k: nat)
    requires IsRun(states, moves) && k < |states|
    ensures Distinct(states[k].releases)
    ensures forall c :: c in states[k].begun <==> c in states[k].calls || c in states[k].releases
    ensures forall c :: c in states[k].releases ==> c !in states[k].calls
    ensures forall i :: 0 <= i < |states[k].connections| && states[k].connections[i].holder.Some? ==>
              states[k].connections[i].holder.value in states[k].calls
  {
    RunKeepsInv(states, moves, k);
    forall i | 0 <= i < |states[k].connections| && states[k].connections[i].holder.Some?
      ensures states[k].connections[i].holder.value in states[k].calls
    {
      assert HolderInv(states[k], i);
    }
  }

  function Remaining(phase: Phase): nat {
    match phase
    case Opening => 7
    case SettingRole => 6
    case SettingContext => 5
    case Checking => 4
    case Running => 3
    case Committing => 2
    case RollingBack => 1
    case Releasing(_) => 0
  }

  /** However its commands end, a call whose operation ends reaches its release. */
  lemma CallsMoveTowardsRelease(s: State, move: Move)
    requires Inv(s) && Possible(s, move) && (move.Issue? || move.Return? || move.Throw?)
    ensures move.c in Next(s, move).calls && Remaining(Next(s, move).calls[move.c].phase) < Remaining(s.calls[move.c].phase)
    ensures Next(s, move).calls[move.c].phase == Releasing(true) <==> s.calls[move.c].phase == Committing && move.Issue? && move.fate == Done
  {
    hide NextConnection;
  }

  /** If every ROLLBACK that is issued takes effect, a client that is free carries neither an
      organization nor the runtime role, so a direct query never runs under a tenant's context. */
  lemma FreeClientsAreClean(states: seq<State>, moves: seq<Move>, k: nat, slot: nat)
    requires IsRun(states, moves) && k < |states| && RollbacksWork(states, moves)
    requires slot < |states[k].connections| && states[k].connections[slot].holder == None
    ensures Clean(states[k].connections[slot].session)
  {
    RunKeepsClean(states, moves, k);
    assert CleanAt(states[k], slot);
  }

  /** The assumption is exactly what is needed: a client comes out of its rollback clean iff the
      ROLLBACK took effect or no context had been set. */
  lemma CleanAfterRollbackIff(states: seq<State>, moves: seq<Move>, k: nat)
    requires IsRun(states, moves) && k < |moves| && moves[k].Issue? && states[k].calls[moves[k].c].phase == RollingBack
    ensures var slot := states[k].calls[moves[k].c].slot;
            && slot < |states[k].connections| && states[k + 1].calls[moves[k].c].phase == Releasing(false)
            && (Clean(states[k + 1].connections[slot].session) <==>
                moves[k].fate == Done || moves[k].fate == Lost(true) || Clean(states[k].connections[slot].session))
  {
  }

  /** A BEGIN whose answer is lost is not rolled back: its client is released inside a transaction.
      `FreeClientIsOpenIff` says when this happens. */
  lemma LostBeginStaysOpen(s: State, c: Id)
    requires HasCall(s, c) && s.calls[c].phase == Opening && s.connections[s.calls[c].slot].session.tx == NoTx
    ensures Possible(s, Issue(c, Lost(true)))
    ensures var next := Next(s, Issue(c, Lost(true)));
            Possible(next, Release(c)) && Next(next, Release(c)).connections[s.calls[c].slot].session.tx == Open
  {
  }

  /** Move `i` is a BEGIN on this client that the server applied although its call saw it fail. */
  ghost predicate LosesBegin(states: seq<State>, moves: seq<Move>, i: nat, slot: nat)
    requires IsRun(states, moves) && i < |moves|
  {
    moves[i].Issue? && SlotOf(states[i], moves[i]) == slot && states[i].calls[moves[i].c].phase == Opening && moves[i].fate == Lost(true)
  }

  /** Move `i` ends the transaction of this client. */
  ghost predicate EndsTransaction(states: seq<State>, moves: seq<Move>, i: nat, slot: nat)
    requires IsRun(states, moves) && i < |moves|
  {
    && moves[i].Issue? && SlotOf(states[i], moves[i]) == slot
    && NextCommand(states[i].calls[moves[i].c]) in {Commit, Rollback} && moves[i].fate in {Done, Lost(true)}
  }

  ghost predicate LeftOpen(states: seq<State>, moves: seq<Move>, k: nat, slot: nat)
    requires IsRun(states, moves) && k < |states|
  {
    k > 0 && (LosesBegin(states, moves, k - 1, slot) || (LeftOpen(states, moves, k - 1, slot) && !EndsTransaction(states, moves, k - 1, slot)))
  }

  /** The client is free, or its call has not begun its transaction, or is done with it. */
  ghost predicate Outside(s: State, slot: nat)
    requires slot < |s.connections|
  {
    var holder := s.connections[slot].holder;
    holder == None || (holder.value in s.calls && (s.calls[holder.value].phase.Opening? || s.calls[holder.value].phase.Releasing?))
  }

  lemma OutsideStep(s: State, move: Move, slot: nat, before: bool)
    requires Inv(s) && Possible(s, move) && RollbackWorks(s, move) && slot < |s.connections|
    requires Outside(s, slot) ==> (s.connections[slot].session.tx != NoTx <==> before)
    ensures |Next(s, move).connections| == |s.connections|
    ensures Outside(Next(s, move), slot) ==>
              (Next(s, move).connections[slot].session.tx != NoTx <==>
               || (move.Issue? && SlotOf(s, move) == slot && s.calls[move.c].phase == Opening && move.fate == Lost(true))
               || (before && !(move.Issue? && SlotOf(s, move) == slot && NextCommand(s.calls[move.c]) in {Commit, Rollback}
                               && move.fate in {Done, Lost(true)})))
  {
    assert HolderInv(s, slot);
    if !move.Direct? && !move.Connect? {
      assert CallInv(s, move.c);
    }
  }

  lemma {:induction false} OutsideMeansNotLeftOpen(states: seq<State>, moves: seq<Move>, k: nat, slot: nat)
    requires IsRun(states, moves) && k < |states| && RollbacksWork(states, moves)
    requires slot < |states[0].connections|
    ensures slot < |states[k].connections|
    ensures Outside(states[k], slot) ==> (states[k].connections[slot].session.tx != NoTx <==> LeftOpen(states, moves, k, slot))
  {
    if k > 0 {
      OutsideMeansNotLeftOpen(states, moves, k - 1, slot);
      RunKeepsInv(states, moves, k - 1);
      assert RollbackWorks(states[k - 1], moves[k - 1]);
      OutsideStep(states[k - 1], moves[k - 1], slot, LeftOpen(states, moves, k - 1, slot));
      hide Next, Possible, Outside, RollbackWorks, Inv;
    }
  }

  lemma {:induction false} LeftOpenIff(states: seq<State>, moves: seq<Move>, k: nat, slot: nat)
    requires IsRun(states, moves) && k < |states|
    ensures LeftOpen(states, moves, k, slot) <==> LostAndNotEnded(states, moves, k, slot)
  {
    assert |states| == |moves| + 1;
    hide LosesBegin, EndsTransaction, IsRun, NotEndedSince;
    if k > 0 {
      LeftOpenIff(states, moves, k - 1, slot);
      NotEndedSteps(states, moves, k, slot);
    }
  }

  lemma NotEndedSteps(states: seq<State>, moves: seq<Move>, k: nat, slot: nat)
    requires IsRun(states, moves) && 0 < k < |states|
    ensures NotEndedSince(states, moves, k - 1, k, slot)
    ensures forall i: nat :: i < k - 1 ==>
              (NotEndedSince(states, moves, i, k, slot) <==> NotEndedSince(states, moves, i, k - 1, slot) && !EndsTransaction(states, moves, k - 1, slot))
  {
    hide IsRun, EndsTransaction;
  }

  ghost predicate NotEndedSince(states: seq<State>, moves: seq<Move>, i: nat, k: nat, slot: nat)
    requires IsRun(states, moves) && k < |states|
  {
    forall j: nat :: i < j < k ==> !EndsTransaction(states, moves, j, slot)
  }

  ghost predicate LostAndNotEnded(states: seq<State>, moves: seq<Move>, k: nat, slot: nat)
    requires IsRun(states, moves) && k < |states|
  {
    exists i: nat :: i < k && LosesBegin(states, moves, i, slot) && NotEndedSince(states, moves, i, k, slot)
  }

  /** Over every run of the pool in which ROLLBACK works: a free client is inside a transaction exactly
      if the answer to a BEGIN on it was lost and no transaction on it has been ended since. */
  lemma FreeClientIsOpenIff(states: seq<State>, moves: seq<Move>, k: nat, slot: nat)
    requires IsRun(states, moves) && k < |states| && RollbacksWork(states, moves)
    requires slot < |states[0].connections|
    ensures slot < |states[k].connections|
    ensures states[k].connections[slot].holder == None ==>
              (states[k].connections[slot].session.tx != NoTx <==> LostAndNotEnded(states, moves, k, slot))
  {
    OutsideMeansNotLeftOpen(states, moves, k, slot);
    LeftOpenIff(states, moves, k, slot);
    hide IsRun, LeftOpen, LostAndNotEnded;
  }

  /** The transaction of this client is aborted, and no call on it is past its BEGIN. */
  ghost predicate Stuck(s: State, slot: nat) {
    && slot < |s.connections| && s.connections[slot].session.tx == Aborted
    && forall c :: c in s.calls && s.calls[c].slot == slot ==> s.calls[c].phase in {Opening, Releasing(false)}
  }

  /** The server executes the command of this move, on this client. */
  ghost predicate Executed(s: State, move: Move, slot: nat)
    requires Possible(s, move)
  {
    (move.Issue? || move.Query? || move.Direct?) && SlotOf(s, move) == slot && move.fate in {Done, Lost(true)}
  }

  lemma StuckStays(s: State, move: Move, slot: nat)
    requires Stuck(s, slot) && Possible(s, move)
    ensures Stuck(Next(s, move), slot) && Next(s, move).connections[slot].session == s.connections[slot].session
    ensures !Executed(s, move, slot)
  {
  }

  lemma FreeAbortedIsStuck(s: State, slot: nat)
    requires Inv(s) && slot < |s.connections| && s.connections[slot].holder == None && s.connections[slot].session.tx == Aborted
    ensures Stuck(s, slot)
  {
    forall c | c in s.calls
      ensures s.calls[c].slot != slot
    {
      assert CallInv(s, c);
    }
  }

  /** A free client whose transaction is aborted is lost to the pool: over every further run its
      session stays as it is, nothing on it is executed, not even a ROLLBACK, and every call that gets it
      fails at its BEGIN. */
  lemma {:induction false} AbortedClientStays(states: seq<State>, moves: seq<Move>, k: nat, n: nat, slot: nat)
    requires IsRun(states, moves) && k <= n < |states|
    requires slot < |states[k].connections| && states[k].connections[slot].holder == None && states[k].connections[slot].session.tx == Aborted
    ensures Stuck(states[n], slot) && states[n].connections[slot].session == states[k].connections[slot].session
    ensures n < |moves| ==> !Executed(states[n], moves[n], slot)
    decreases n
  {
    if n == k {
      RunKeepsInv(states, moves, k);
      FreeAbortedIsStuck(states[k], slot);
    } else {
      AbortedClientStays(states, moves, k, n - 1, slot);
      StuckStays(states[n - 1], moves[n - 1], slot);
    }
    if n < |moves| {
      StuckStays(states[n], moves[n], slot);
    }
    hide Stuck, Next, Possible, Inv, Executed;
  }

  /** The moves that lose a client: a lost BEGIN, and then a refused direct query on it. */
  function LosingMoves(c: Id, slot: nat, organization: string): seq<Move> {
    [Connect(c, slot, organization), Issue(c, Lost(true)), Release(c), Direct(slot, Refused)]
  }

  /** Every pool can lose any of its clients in this way, without a ROLLBACK that fails. */
  lemma ClientIsLost(start: State, c: Id, slot: nat, organization: string) returns (states: seq<State>)
    requires Init(start) && slot < |start.connections|
    ensures IsRun(states, LosingMoves(c, slot, organization)) && states[0] == start && RollbacksWork(states, LosingMoves(c, slot, organization))
    ensures slot < |states[4].connections| && states[4].connections[slot] == Connection(Session(Aborted, None, false), None)
  {
    var moves := LosingMoves(c, slot, organization);
    var opening := Next(start, moves[0]);
    var begun := Next(opening, moves[1]);
    var released := Next(begun, moves[2]);
    states := [start, opening, begun, released, Next(released, moves[3])];
    assert IsRun(states, moves);
  }

  /** The moves of a call that nothing disturbs: up to its operation, and with one query from there on. */
  function OpeningMoves(c: Id, slot: nat, organization: string): seq<Move> {
    [Connect(c, slot, organization), Issue(c, Done), Issue(c, Done), Issue(c, Done), Issue(c, Done)]
  }

  function ClosingMoves(c: Id): seq<Move> {
    [Query(c, Done), Return(c), Issue(c, Done), Release(c)]
  }

  /** These moves can be made one after the other, and end there. */
  ghost predicate Leads(s: State, moves: seq<Move>, after: State)
    decreases |moves|
  {
    if moves == [] then s == after else Possible(s, moves[0]) && Leads(Next(s, moves[0]), moves[1..], after)
  }

  lemma LeadsNowhere(s: State)
    ensures Leads(s, [], s)
  {
  }

  lemma LeadsOn(s: State, move: Move, next: State, moves: seq<Move>, after: State)
    requires Possible(s, move) && Next(s, move) == next && Leads(next, moves, after)
    ensures Leads(s, [move] + moves, after)
  {
    hide Possible, Next;
    assert ([move] + moves)[1..] == moves;
  }

  /** The call in this phase, on its client with this session. */
  function InCall(s: State, c: Id, slot: nat, organization: string, phase: Phase, session: Session): State
    requires slot < |s.connections|
  {
    s.(connections := s.connections[slot := Connection(session, Some(c))], calls := s.calls[c := Call(organization, slot, phase)],
       begun := s.begun + {c})
  }

  lemma CallIssues(s: State, c: Id, slot: nat, organization: string, phase: Phase, session: Session)
    requires slot < |s.connections| && phase !in {Running, Releasing(false), Releasing(true)} && session.tx != Aborted
    ensures var now := InCall(s, c, slot, organization, phase, session);
            var call := Call(organization, slot, phase);
            && Possible(now, Issue(c, Done))
            && Next(now, Issue(c, Done)) == InCall(s, c, slot, organization, NextPhase(call, session, Done), Execute(session, NextCommand(call), Done))
  {
  }

  lemma CallRuns(s: State, c: Id, slot: nat, organization: string, session: Session)
    requires slot < |s.connections| && session.tx == Open
    ensures var running := InCall(s, c, slot, organization, Running, session);
            && Possible(running, Query(c, Done)) && Next(running, Query(c, Done)) == running
            && Possible(running, Return(c)) && Next(running, Return(c)) == InCall(s, c, slot, organization, Committing, session)
  {
  }

  lemma CallEnds(s: State, c: Id, slot: nat, organization: string)
    requires c !in s.calls && c !in s.begun && slot < |s.connections| && s.connections[slot] == Connection(Session(NoTx, None, false), None)
    ensures Possible(s, Connect(c, slot, organization))
    ensures Next(s, Connect(c, slot, organization)) == InCall(s, c, slot, organization, Opening, Session(NoTx, None, false))
    ensures var done := InCall(s, c, slot, organization, Releasing(true), Session(NoTx, None, false));
            && Possible(done, Release(c)) && Next(done, Release(c)) == s.(begun := s.begun + {c}, releases := s.releases + [c])
  {
    assert s.calls[c := Call(organization, slot, Releasing(true))] - {c} == s.calls;
  }

  lemma CallOpens(s: State, c: Id, slot: nat, organization: string)
    requires c !in s.calls && c !in s.begun && slot < |s.connections| && s.connections[slot] == Connection(Session(NoTx, None, false), None)
    ensures Leads(s, OpeningMoves(c, slot, organization), InCall(s, c, slot, organization, Running, Session(Open, Some(organization), true)))
  {
    var closed, begun, inRole, inContext := Session(NoTx, None, false), Session(Open, None, false), Session(Open, None, true), Session(Open, Some(organization), true);
    CallEnds(s, c, slot, organization);
    CallIssues(s, c, slot, organization, Opening, closed);
    CallIssues(s, c, slot, organization, SettingRole, begun);
    CallIssues(s, c, slot, organization, SettingContext, inRole);
    CallIssues(s, c, slot, organization, Checking, inContext);
    var opening, beginning := InCall(s, c, slot, organization, Opening, closed), InCall(s, c, slot, organization, SettingRole, begun);
    var setting, checking := InCall(s, c, slot, organization, SettingContext, inRole), InCall(s, c, slot, organization, Checking, inContext);
    var running := InCall(s, c, slot, organization, Running, inContext);
    LeadsNowhere(running);
    var one := [Issue(c, Done)] + [];
    assert OpeningMoves(c, slot, organization) == [Connect(c, slot, organization)] + ([Issue(c, Done)] + ([Issue(c, Done)] + ([Issue(c, Done)] + one)));
    hide Leads, InCall, Next, Possible;
    LeadsOn(checking, Issue(c, Done), running, [], running);
    LeadsOn(setting, Issue(c, Done), checking, one, running);
    LeadsOn(beginning, Issue(c, Done), setting, [Issue(c, Done)] + one, running);
    LeadsOn(opening, Issue(c, Done), beginning, [Issue(c, Done)] + ([Issue(c, Done)] + one), running);
    LeadsOn(s, Connect(c, slot, organization), opening, [Issue(c, Done)] + ([Issue(c, Done)] + ([Issue(c, Done)] + one)), running);
  }

  lemma CallCloses(s: State, c: Id, slot: nat, organization: string)
    requires c !in s.calls && c !in s.begun && slot < |s.connections| && s.connections[slot] == Connection(Session(NoTx, None, false), None)
    ensures Leads(InCall(s, c, slot, organization, Running, Session(Open, Some(organization), true)), ClosingMoves(c),
                  s.(begun := s.begun + {c}, releases := s.releases + [c]))
  {
    var closed, inContext := Session(NoTx, None, false), Session(Open, Some(organization), true);
    CallRuns(s, c, slot, organization, inContext);
    CallIssues(s, c, slot, organization, Committing, inContext);
    CallEnds(s, c, slot, organization);
    var running, committing := InCall(s, c, slot, organization, Running, inContext), InCall(s, c, slot, organization, Committing, inContext);
    var done, after := InCall(s, c, slot, organization, Releasing(true), closed), s.(begun := s.begun + {c}, releases := s.releases + [c]);
    LeadsNowhere(after);
    var releasing := [Release(c)] + [];
    assert ClosingMoves(c) == [Query(c, Done)] + ([Return(c)] + ([Issue(c, Done)] + releasing));
    hide Leads, InCall, Next, Possible;
    LeadsOn(done, Release(c), after, [], after);
    LeadsOn(committing, Issue(c, Done), done, releasing, after);
    LeadsOn(running, Return(c), committing, [Issue(c, Done)] + releasing, after);
    LeadsOn(running, Query(c, Done), running, [Return(c)] + ([Issue(c, Done)] + releasing), after);
  }

  /** From a free client outside a transaction a call goes through: it runs under its own organization,
      COMMIT is done, and the client is given back as it came. */
  lemma UndisturbedCall(s: State, c: Id, slot: nat, organization: string) returns (running: State)
    requires c !in s.calls && c !in s.begun && slot < |s.connections| && s.connections[slot] == Connection(Session(NoTx, None, false), None)
    ensures Leads(s, OpeningMoves(c, slot, organization), running)
    ensures running == InCall(s, c, slot, organization, Running, Session(Open, Some(organization), true))
    ensures Leads(running, ClosingMoves(c), s.(begun := s.begun + {c}, releases := s.releases + [c]))
    ensures Next(InCall(s, c, slot, organization, Committing, running.connections[slot].session), Issue(c, Done)).calls[c].phase == Releasing(true)
  {
    CallOpens(s, c, slot, organization);
    CallCloses(s, c, slot, organization);
    running := InCall(s, c, slot, organization, Running, Session(Open, Some(organization), true));
    CallIssues(s, c, slot, organization, Committing, Session(Open, Some(organization), true));
    hide Leads, Next, Possible;
  }

  // ---- The pool model is refined ----

  ghost function Abstract(s: State): seq<Slot>
    requires Inv(s)
  {
    seq(|s.connections|, i requires 0 <= i < |s.connections| => AbstractSlot(s, i))
  }

  ghost function AbstractSlot(s: State, i: nat): Slot
    requires Inv(s) && i < |s.connections|
  {
    assert HolderInv(s, i);
    if s.connections[i].holder == None then Slot(None, false)
    else Slot(Some(s.calls[s.connections[i].holder.value].organization), true)
  }

  lemma HolderStays(s: State, move: Move, i: nat)
    requires Inv(s) && Possible(s, move) && i < |s.connections|
    requires (move.Connect? || move.Release?) ==> SlotOf(s, move) != i
    ensures |Next(s, move).connections| == |s.connections| && Next(s, move).connections[i].holder == s.connections[i].holder
    ensures s.connections[i].holder.Some? ==>
              var c := s.connections[i].holder.value;
              c in s.calls && c in Next(s, move).calls && Next(s, move).calls[c].organization == s.calls[c].organization
  {
    assert HolderInv(s, i);
    hide PhaseInv, NextPhase, Execute, NextCommand;
  }

  lemma OtherSlotsStay(s: State, move: Move, i: nat)
    requires Inv(s) && Possible(s, move) && i < |s.connections|
    requires (move.Connect? || move.Release?) ==> SlotOf(s, move) != i
    ensures Inv(Next(s, move)) && i < |Next(s, move).connections|
    ensures AbstractSlot(Next(s, move), i) == AbstractSlot(s, i)
  {
    NextKeepsInv(s, move);
    HolderStays(s, move, i);
    hide Inv, Next, Possible, SlotOf;
  }

  /** Getting a client is the model's entry, releasing it is the model's exit, and everything between
      is invisible to the model. */
  lemma StepRefinesModel(s: State, move: Move)
    requires Inv(s) && Possible(s, move)
    ensures Inv(Next(s, move))
    ensures move.Connect? ==> Enters(Abstract(s), Abstract(Next(s, move)), move.slot, move.organization)
    ensures move.Release? ==> Leaves(Abstract(s), Abstract(Next(s, move)), s.calls[move.c].slot)
    ensures !move.Connect? && !move.Release? ==> Abstract(Next(s, move)) == Abstract(s)
  {
    NextKeepsInv(s, move);
    if move.Release? {
      assert CallInv(s, move.c);
    }
    forall i: nat | i < |s.connections| && ((move.Connect? || move.Release?) ==> SlotOf(s, move) != i)
      ensures AbstractSlot(Next(s, move), i) == AbstractSlot(s, i)
    {
      OtherSlotsStay(s, move, i);
    }
    hide Inv, NextPhase, Execute, NextCommand, PhaseInv;
  }

  /** A query sees the organization that the model's slot has: that of the operation in it, or, for a
      direct query on a free client, none. */
  lemma QueriesSeeTheModelsOrganization(states: seq<State>, moves: seq<Move>, k: nat)
    requires IsRun(states, moves) && RollbacksWork(states, moves) && k < |moves|
    requires (moves[k].Query? || moves[k].Direct?) && (moves[k].fate == Done || moves[k].fate == Lost(true))
    ensures Inv(states[k])
    ensures states[k].connections[SlotOf(states[k], moves[k])].session.organization == Abstract(states[k])[SlotOf(states[k], moves[k])].organization
  {
    RunKeepsInv(states, moves, k);
    if moves[k].Query? {
      QueryRunsUnderOwnOrganization(states, moves, k);
    } else {
      FreeClientsAreClean(states, moves, k, moves[k].slot);
    }
  }
}
