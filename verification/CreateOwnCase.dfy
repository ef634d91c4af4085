/** `createOwnCase` of modules/work-management: the plan built by the domain, the snapshot kept for
    replays, and the command as one transaction. */
module CreateOwnCase {
  import opened Common

  type Id = string
  type Time = int

  /** A due date as a caller spells it, and the instant that it reads as, if any. */
  datatype DueText = DueText(spelling: string, at: Option<Time>)

  predicate Readable(due: Option<DueText>) {
    due.Some? ==> due.value.at.Some?
  }

  function Instant(due: Option<DueText>): Option<Time> {
    if due.Some? then due.value.at else None
  }

  // ---- Domain ----

  datatype Target = MembershipTarget(id: Id) | TeamTarget(id: Id)

  datatype ResponsibilityStatus = PendingAcceptance | Accepted
  datatype AcceptanceMode = SelfMode | ExplicitMode | ForcedMode
  datatype Rank = Primary | Secondary

  datatype Responsibility = Responsibility(
    id: Id, caseId: Id, organizationId: Id, target: Target, assignedBy: Id, status: ResponsibilityStatus,
    mode: AcceptanceMode, role: Rank, acceptedBy: Option<Id>, acceptedAt: Option<Time>, createdAt: Time)

  datatype ActionStatus = Pending | InProgress | Done

  datatype Action = Action(
    id: Id, caseId: Id, organizationId: Id, source: Option<Id>, responsible: Target, createdBy: Id, kind: Rank,
    parent: Option<Id>, title: string, dueAt: Option<Time>, status: ActionStatus, createdAt: Time)

  datatype CaseStatus = Open | Resolved | Closed | Cancelled

  datatype Case = Case(
    id: Id, organizationId: Id, title: string, description: string, priority: string, dueAt: Option<Time>,
    status: CaseStatus, createdBy: Id, primaryResponsibility: Option<Id>, currentWork: Option<Id>, createdAt: Time)

  datatype DomainError =
    | InvalidSelfResponsibility | InvalidActionHierarchy | InvalidActionTitle | InvalidCaseTitle | InvalidCaseDescription
    | InvalidCasePriority | InvalidTimestamp | PrimaryResponsibilityRequired | CurrentWorkRequired | InvalidCaseTransition

  /** `replace(/\s+/gu, ' ')` on a trimmed text. */
  function Collapse(s: string): string {
    if |s| < 2 then (if s != "" && IsSpace(s[0]) then " " else s)
    else if IsSpace(s[0]) then (if IsSpace(s[1]) then Collapse(s[1..]) else " " + Collapse(s[1..]))
    else [s[0]] + Collapse(s[1..])
  }

  function NormalizeRequiredText(s: string): string {
    Collapse(Trim(s))
  }

  function CreateCaseResponsibility(id: Id, caseId: Id, organizationId: Id, target: Target, assignedBy: Id,
                                    mode: AcceptanceMode, role: Rank, now: Time): Result<Responsibility, DomainError> {
    if mode == SelfMode && target != MembershipTarget(assignedBy) then Err(InvalidSelfResponsibility)
    else
      var accepted := mode == SelfMode || mode == ForcedMode;
      Ok(Responsibility(id, caseId, organizationId, target, assignedBy, if accepted then Accepted else PendingAcceptance,
                        mode, role, if mode == SelfMode && target.MembershipTarget? then Some(target.id) else None,
                        if accepted then Some(now) else None, now))
  }

  function CreateActionItem(id: Id, caseId: Id, organizationId: Id, source: Option<Id>, responsible: Target, createdBy: Id,
                            kind: Rank, parent: Option<Id>, title: string, dueAt: Option<DueText>, now: Time)
    : Result<Action, DomainError> {
    if kind == Primary && parent.Some? then Err(InvalidActionHierarchy)
    else if kind == Secondary && parent.None? then Err(InvalidActionHierarchy)
    else if NormalizeRequiredText(title) == "" then Err(InvalidActionTitle)
    else if !Readable(dueAt) then Err(InvalidTimestamp)
    else Ok(Action(id, caseId, organizationId, source, responsible, createdBy, kind, parent, NormalizeRequiredText(title),
                   Instant(dueAt), Pending, now))
  }

  function FollowUpCaseInvariantError(value: Case): Option<DomainError> {
    if value.status == Open then
      if value.primaryResponsibility.None? then Some(PrimaryResponsibilityRequired)
      else if value.currentWork.None? then Some(CurrentWorkRequired)
      else None
    else if value.primaryResponsibility.Some? || value.currentWork.Some? then Some(InvalidCaseTransition)
    else None
  }

  predicate KnownPriority(priority: string) {
    priority == "low" || priority == "normal" || priority == "high"
  }

  function CreateFollowUpCase(id: Id, organizationId: Id, title: string, description: string, priority: string,
                              dueAt: Option<DueText>, createdBy: Id, primaryResponsibility: Id, currentWork: Id, now: Time)
    : Result<Case, DomainError> {
    if NormalizeRequiredText(title) == "" then Err(InvalidCaseTitle)
    else if NormalizeRequiredText(description) == "" then Err(InvalidCaseDescription)
    else if !KnownPriority(priority) then Err(InvalidCasePriority)
    else if !Readable(dueAt) then Err(InvalidTimestamp)
    else
      var value := Case(id, organizationId, NormalizeRequiredText(title), NormalizeRequiredText(description), priority, Instant(dueAt),
                        Open, createdBy, Some(primaryResponsibility), Some(currentWork), now);
      match FollowUpCaseInvariantError(value)
      case Some(error) => Err(error)
      case None => Ok(value)
  }

  // ---- The plan ----

  /** A request together with what the surrounding transaction supplies: the membership that
      authorization found (if any), the time, and the three random identifiers. */
  datatype Request = Request(organizationId: Id, token: string, membership: Option<Id>, title: string, description: string,
                             priority: string, dueAt: Option<DueText>, actionTitle: string, actionDueAt: Option<DueText>, now: Time)

  datatype Identity = Identity(caseId: Id, responsibilityId: Id, actionId: Id)

  datatype Plan = Plan(followUp: Case, responsibility: Responsibility, action: Action)

  function PlanCreateOwnCase(r: Request, ids: Identity): Result<Plan, DomainError>
    requires r.membership.Some?
  {
    var me := r.membership.value;
    match CreateCaseResponsibility(ids.responsibilityId, ids.caseId, r.organizationId, MembershipTarget(me), me, SelfMode, Primary, r.now)
    case Err(error) => Err(error)
    case Ok(responsibility) =>
      match CreateActionItem(ids.actionId, ids.caseId, r.organizationId, Some(responsibility.id), MembershipTarget(me), me,
                             Primary, None, r.actionTitle, r.actionDueAt, r.now)
      case Err(error) => Err(error)
      case Ok(action) =>
        match CreateFollowUpCase(ids.caseId, r.organizationId, r.title, r.description, r.priority, r.dueAt, me,
                                 responsibility.id, action.id, r.now)
        case Err(error) => Err(error)
        case Ok(followUp) => Ok(Plan(followUp, responsibility, action))
  }

  /** The hashed fields; SHA-256 of JSON text is taken to be injective. */
  datatype Fingerprint = Fingerprint(title: string, description: string, priority: string, dueAt: Option<DueText>,
                                     actionTitle: string, actionDueAt: Option<DueText>)

  function RequestFingerprint(r: Request): Fingerprint {
    Fingerprint(Trim(r.title), Trim(r.description), r.priority, r.dueAt, Trim(r.actionTitle), r.actionDueAt)
  }

  // ---- The stored result ----

  datatype Json = Undefined | Null | Text(text: string) | Number(value: int) | Object(fields: map<string, Json>)

  function Field(value: Json, name: string): Json {
    if value.Object? && name in value.fields then value.fields[name] else Undefined
  }

  /** The answer without `replayed`; the due dates are not looked at when it is read back. */
  datatype Stored = Stored(caseId: string, title: string, priority: string, dueAt: Json, responsibilityId: string,
                           actionId: string, actionTitle: string, actionDueAt: Json)

  function ResultSnapshot(s: Stored): Json {
    Object(map[
      "caseId" := Text(s.caseId), "title" := Text(s.title), "status" := Text("open"), "priority" := Text(s.priority),
      "dueAt" := s.dueAt, "responsibilityId" := Text(s.responsibilityId),
      "initialAction" := Object(map["id" := Text(s.actionId), "title" := Text(s.actionTitle),
                                    "status" := Text("pending"), "dueAt" := s.actionDueAt])])
  }

  function ReadStoredResult(value: Json): Option<Stored> {
    var action := Field(value, "initialAction");
    if && value.Object?
       && Field(value, "caseId").Text? && Field(value, "title").Text? && Field(value, "status") == Text("open")
       && Field(value, "priority").Text? && KnownPriority(Field(value, "priority").text)
       && Field(value, "responsibilityId").Text?
       && Field(action, "id").Text? && Field(action, "title").Text? && Field(action, "status") == Text("pending")
    then Some(Stored(Field(value, "caseId").text, Field(value, "title").text, Field(value, "priority").text, Field(value, "dueAt"),
                     Field(value, "responsibilityId").text, Field(action, "id").text, Field(action, "title").text, Field(action, "dueAt")))
    else None
  }

  /** Reading undoes writing; what is read back from any value writes those fields again. */
  lemma SnapshotRoundTrip(s: Stored)
    requires KnownPriority(s.priority)
    ensures ReadStoredResult(ResultSnapshot(s)) == Some(s)
  {
    var value := ResultSnapshot(s);
    assert Field(value, "initialAction").Object?;
  }

  function TimeJson(at: Option<Time>): Json {
    if at.Some? then Number(at.value) else Null
  }

  function StoredOf(plan: Plan): Stored {
    Stored(plan.followUp.id, plan.followUp.title, plan.followUp.priority, TimeJson(plan.followUp.dueAt), plan.responsibility.id,
           plan.action.id, plan.action.title, TimeJson(plan.action.dueAt))
  }

  // ---- The command as one transaction ----

  datatype Key = Key(organizationId: Id, token: string)

  datatype Progress = Started | Completed(resource: Id, snapshot: Json)

  datatype Row = Row(fingerprint: Fingerprint, progress: Progress)

  datatype Tables = Tables(cases: map<Id, Case>, responsibilities: map<Id, Responsibility>, actions: map<Id, Action>,
                           currentWork: map<Id, Id>,  // the open current-work row of a case: its action
                           idempotency: map<Key, Row>)

  datatype Outcome = Created(result: Stored, replayed: bool) | Denied | Conflict | InProgressElsewhere | Failed

  function KeyOf(r: Request): Key {
    Key(r.organizationId, r.token)
  }

  predicate Fits(t: Tables, ids: Identity) {
    ids.caseId !in t.cases && ids.responsibilityId !in t.responsibilities && ids.actionId !in t.actions && ids.caseId !in t.currentWork
  }

  /** The case row has no columns for the responsibility and the current work. */
  function CaseRow(value: Case): Case {
    value.(primaryResponsibility := None, currentWork := None)
  }

  function WithPlan(t: Tables, plan: Plan): Tables {
    t.(cases := t.cases[plan.followUp.id := CaseRow(plan.followUp)],
       responsibilities := t.responsibilities[plan.responsibility.id := plan.responsibility],
       actions := t.actions[plan.action.id := plan.action],
       currentWork := t.currentWork[plan.followUp.id := plan.action.id])
  }

  function CompletedRow(r: Request, plan: Plan): Row {
    Row(RequestFingerprint(r), Completed(plan.followUp.id, ResultSnapshot(StoredOf(plan))))
  }

  /** The answer that a row found for the key gives. */
  function AnswerFrom(row: Row, r: Request): Outcome {
    if row.fingerprint != RequestFingerprint(r) then Conflict
    else match row.progress
      case Started => InProgressElsewhere
      case Completed(_, snapshot) =>
        match ReadStoredResult(snapshot)
        case Some(stored) => Created(stored, true)
        case None => Failed
  }

  /** The whole command without interference; `Failed` rolls back. */
  function Atomic(t: Tables, r: Request, ids: Identity): (Tables, Outcome) {
    if r.membership.None? then (t, Denied)
    else if KeyOf(r) in t.idempotency then (t, AnswerFrom(t.idempotency[KeyOf(r)], r))
    else match PlanCreateOwnCase(r, ids)
      case Err(_) => (t, Failed)
      case Ok(plan) =>
        if !Fits(t, ids) then (t, Failed)
        else (WithPlan(t, plan).(idempotency := t.idempotency[KeyOf(r) := CompletedRow(r, plan)]), Created(StoredOf(plan), false))
  }

  lemma StoredCase(plan: Plan)
    ensures StoredOf(plan).caseId == plan.followUp.id
  {
  }

  lemma PlanIds(r: Request, ids: Identity)
    requires r.membership.Some? && PlanCreateOwnCase(r, ids).Ok?
    ensures var plan := PlanCreateOwnCase(r, ids).value;
            plan.followUp.id == ids.caseId && plan.responsibility.id == ids.responsibilityId && plan.action.id == ids.actionId
  {
  }

  class WorkDatabase {
    var cases: map<Id, Case>
    var responsibilities: map<Id, Responsibility>
    var actions: map<Id, Action>
    var currentWork: map<Id, Id>
    var idempotency: map<Key, Row>

    function Contents(): Tables
      reads this
    {
      Tables(cases, responsibilities, actions, currentWork, idempotency)
    }

    method Rollback(saved: Tables)
      modifies this
      ensures Contents() == saved
    {
      cases, responsibilities, actions := saved.cases, saved.responsibilities, saved.actions;
      currentWork, idempotency := saved.currentWork, saved.idempotency;
    }

    /** Four inserts, each against a primary key or the one-open-row index of current work. */
    method InsertPlan(plan: Plan) returns (refused: bool)
      modifies this`cases, this`responsibilities, this`actions, this`currentWork
      ensures refused <==> !Fits(old(Contents()), Identity(plan.followUp.id, plan.responsibility.id, plan.action.id))
      ensures !refused ==> Contents() == WithPlan(old(Contents()), plan)
    {
      if plan.followUp.id in cases {
        return true;
      }
      cases := cases[plan.followUp.id := CaseRow(plan.followUp)];
      if plan.responsibility.id in responsibilities {
        return true;
      }
      responsibilities := responsibilities[plan.responsibility.id := plan.responsibility];
      if plan.action.id in actions {
        return true;
      }
      actions := actions[plan.action.id := plan.action];
      if plan.followUp.id in currentWork {
        return true;
      }
      currentWork := currentWork[plan.followUp.id := plan.action.id];
      return false;
    }

    method CreateOwnCase(r: Request, ids: Identity) returns (outcome: Outcome)
      modifies this
      ensures (Contents(), outcome) == Atomic(old(Contents()), r, ids)
    {
      hide PlanCreateOwnCase, StoredOf, ResultSnapshot, ReadStoredResult, RequestFingerprint;
      var saved := Contents();
      if r.membership.None? {
        return Denied;
      }
      if KeyOf(r) in idempotency {
        return AnswerFrom(idempotency[KeyOf(r)], r);
      }
      idempotency := idempotency[KeyOf(r) := Row(RequestFingerprint(r), Started)];
      var planned := PlanCreateOwnCase(r, ids);
      if planned.Err? {
        Rollback(saved);
        return Failed;
      }
      var plan := planned.value;
      PlanIds(r, ids);
      var refused := InsertPlan(plan);
      if refused {
        Rollback(saved);
        return Failed;
      }
      var result := StoredOf(plan);
      assert result.caseId == plan.followUp.id by {
        StoredCase(plan);
      }
      idempotency := idempotency[KeyOf(r) := Row(RequestFingerprint(r), Completed(result.caseId, ResultSnapshot(result)))];
      assert idempotency == saved.idempotency[KeyOf(r) := CompletedRow(r, plan)];
      return Created(result, false);
    }
  }

  // ---- What a plan is ----

  /** Exactly the requests with readable texts and due dates and a known priority can be planned. */
  lemma PlanExistsIff(r: Request, ids: Identity)
    requires r.membership.Some?
    ensures PlanCreateOwnCase(r, ids).Ok? <==>
            && NormalizeRequiredText(r.title) != "" && NormalizeRequiredText(r.description) != ""
            && NormalizeRequiredText(r.actionTitle) != "" && KnownPriority(r.priority)
            && Readable(r.dueAt) && Readable(r.actionDueAt)
  {
  }

  lemma {:induction false} CollapseEmpty(s: string)
    ensures Collapse(s) == "" <==> s == ""
  {
    if |s| >= 2 {
      CollapseEmpty(s[1..]);
    }
  }

  /** A text is refused exactly when it consists of white space. */
  lemma BlankIff(s: string)
    ensures NormalizeRequiredText(s) == "" <==> Trim(s) == ""
  {
    CollapseEmpty(Trim(s));
  }

  /** Requests with the same fingerprint in the same organization would get plans that differ in
      nothing but identifiers, author and time. */
  lemma FingerprintDeterminesPlan(r: Request, q: Request, ids: Identity, jds: Identity)
    requires r.membership.Some? && q.membership.Some? && RequestFingerprint(r) == RequestFingerprint(q)
    ensures PlanCreateOwnCase(r, ids).Ok? <==> PlanCreateOwnCase(q, jds).Ok?
    ensures PlanCreateOwnCase(r, ids).Ok? ==>
              StoredOf(PlanCreateOwnCase(q, jds).value) ==
              StoredOf(PlanCreateOwnCase(r, ids).value).(caseId := jds.caseId, responsibilityId := jds.responsibilityId, actionId := jds.actionId)
  {
  }
}
