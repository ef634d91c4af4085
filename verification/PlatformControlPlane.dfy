/** The platform control plane of modules/organization-administration: four commands, each one
    transaction over the identity tables, an audit log and a table of idempotency rows. */
module PlatformControlPlane {
  import opened Common

  type Id = string

  datatype UserStatus = PendingUser | ActiveUser | DisabledUser

  datatype User = User(email: string, status: UserStatus)

  datatype Standing = Invited | Active | Suspended | Revoked

  datatype Membership = Membership(userId: Id, organizationId: Id, status: Standing)

  datatype RoleKey = Member | Manager | OrganizationAdmin

  datatype Operation = CreateOp | RenameOp | ProvisionOp | RevokeOp

  datatype Key = Key(actor: Id, operation: Operation, token: string)

  /** The fields that a command hashes into its request fingerprint. SHA-256 of JSON text is taken
      to be injective, so the request stands for its own fingerprint. */
  datatype Request =
    | Create(name: string, reason: string)
    | Rename(organizationId: Id, name: string, reason: string)
    | Provision(organizationId: Id, email: string, reason: string)
    | Revoke(organizationId: Id, membershipId: Id, reason: string)
  {
    function Operation(): Operation {
      match this
      case Create(_, _) => CreateOp
      case Rename(_, _, _) => RenameOp
      case Provision(_, _, _) => ProvisionOp
      case Revoke(_, _, _) => RevokeOp
    }
  }

  /** A normalised call of the repository; the `fresh...` identifiers come from `createId`. */
  datatype Command = Command(actor: Id, token: string, request: Request, auditId: Id,
                             freshOrganizationId: Id, freshUserId: Id, freshMembershipId: Id)
  {
    function IdempotencyKey(): Key {
      Key(actor, request.Operation(), token)
    }
  }

  datatype Receipt =
    | OrganizationReceipt(id: Id, name: string)
    | AdminReceipt(organizationId: Id, userId: Id, email: string, membershipId: Id, accountSetupRequired: bool)
    | RevocationReceipt(organizationId: Id, userId: Id, email: string, membershipId: Id)

  /** `Failed` is a statement that the database refuses: the transaction rolls back. */
  datatype Outcome =
    | Success(result: Receipt, replayed: bool)
    | Forbidden | IdempotencyConflict | OrganizationNotFound | UserStateConflict
    | MembershipStateConflict | AdminNotFound | LastAdminConflict | Failed

  datatype AuditRow = AuditRow(actor: Id, operation: Operation, reason: string, organizationId: Id, target: Option<Id>)

  datatype StoredResult = StoredResult(fingerprint: Request, result: Receipt)

  datatype Tables = Tables(
    operators: set<Id>,  // the active ones
    organizations: map<Id, string>,
    users: map<Id, User>,
    credentials: set<Id>,
    memberships: map<Id, Membership>,
    roles: set<(Id, RoleKey)>,
    teamMembers: set<(Id, Id, Id)>,  // organization, team, membership
    audit: map<Id, AuditRow>,
    idempotency: map<Key, StoredResult>)

  predicate SameSeat(m: Membership, n: Membership) {
    m.userId == n.userId && m.organizationId == n.organizationId
  }

  /** Unique e-mail addresses, one membership per organization and user, and the foreign keys. */
  ghost predicate Inv(t: Tables) {
    && (forall u, v :: u in t.users && v in t.users && t.users[u].email == t.users[v].email ==> u == v)
    && (forall m, n :: m in t.memberships && n in t.memberships && SameSeat(t.memberships[m], t.memberships[n]) ==> m == n)
    && (forall m :: m in t.memberships ==> t.memberships[m].userId in t.users)
    && (forall role :: role in t.roles ==> role.0 in t.memberships)
  }

  // ---- The transactions as functions on the tables ----

  ghost predicate HasEmail(t: Tables, u: Id, email: string) {
    u in t.users && t.users[u].email == email
  }

  ghost function FindUser(t: Tables, email: string): Option<Id> {
    if u: Id :| HasEmail(t, u, email) then Some(u) else None
  }

  ghost predicate BelongsTo(t: Tables, m: Id, organizationId: Id, userId: Id) {
    m in t.memberships && t.memberships[m].organizationId == organizationId && t.memberships[m].userId == userId
  }

  ghost function FindMembership(t: Tables, organizationId: Id, userId: Id): Option<Id> {
    if m: Id :| BelongsTo(t, m, organizationId, userId) then Some(m) else None
  }

  /** `insertAudit` then `storeIdempotency`; the audit id is a primary key. */
  function Record(t: Tables, c: Command, organizationId: Id, target: Option<Id>, result: Receipt): (Tables, Outcome) {
    if c.auditId in t.audit || c.IdempotencyKey() in t.idempotency then (t, Failed)
    else
      (t.(audit := t.audit[c.auditId := AuditRow(c.actor, c.request.Operation(), c.request.reason, organizationId, target)],
          idempotency := t.idempotency[c.IdempotencyKey() := StoredResult(c.request, result)]),
       Success(result, false))
  }

  function CreateOrganization(t: Tables, c: Command): (Tables, Outcome)
    requires c.request.Create?
  {
    var id := c.freshOrganizationId;
    if id in t.organizations then (t, Failed)
    else Record(t.(organizations := t.organizations[id := c.request.name]), c, id, None, OrganizationReceipt(id, c.request.name))
  }

  function RenameOrganization(t: Tables, c: Command): (Tables, Outcome)
    requires c.request.Rename?
  {
    var id := c.request.organizationId;
    if id !in t.organizations then (t, OrganizationNotFound)
    else Record(t.(organizations := t.organizations[id := c.request.name]), c, id, None, OrganizationReceipt(id, c.request.name))
  }

  function WithoutRoles(roles: set<(Id, RoleKey)>, membershipId: Id): set<(Id, RoleKey)> {
    set role | role in roles && role.0 != membershipId
  }

  /** From the membership lookup of `provisionInitialAdmin` on; the user row exists by now. */
  ghost function ProvisionMembership(t: Tables, c: Command, userId: Id): (Tables, Outcome)
    requires c.request.Provision?
  {
    var organizationId := c.request.organizationId;
    var found := FindMembership(t, organizationId, userId);
    if found.Some? && t.memberships[found.value].status != Active then (t, MembershipStateConflict)
    else if found == None && c.freshMembershipId in t.memberships then (t, Failed)
    else
      var membershipId := if found.Some? then found.value else c.freshMembershipId;
      var memberships := if found.Some? then t.memberships
                         else t.memberships[membershipId := Membership(userId, organizationId, Active)];
      Record(t.(memberships := memberships,
                roles := WithoutRoles(t.roles, membershipId) + {(membershipId, OrganizationAdmin)}),
             c, organizationId, Some(userId),
             AdminReceipt(organizationId, userId, c.request.email, membershipId, userId !in t.credentials))
  }

  /** Note that the user row is inserted before the membership is looked at. */
  ghost function ProvisionInitialAdmin(t: Tables, c: Command): (Tables, Outcome)
    requires c.request.Provision?
  {
    if c.request.organizationId !in t.organizations then (t, OrganizationNotFound)
    else
      match FindUser(t, c.request.email)
      case Some(userId) =>
        if t.users[userId].status != ActiveUser then (t, UserStateConflict) else ProvisionMembership(t, c, userId)
      case None =>
        if c.freshUserId in t.users then (t, Failed)
        else
          ProvisionMembership(t.(users := t.users[c.freshUserId := User(c.request.email, ActiveUser)]), c, c.freshUserId)
  }

  predicate IsAdmin(t: Tables, organizationId: Id, m: Id) {
    m in t.memberships && t.memberships[m].organizationId == organizationId && (m, OrganizationAdmin) in t.roles
  }

  predicate IsActiveAdmin(t: Tables, organizationId: Id, m: Id) {
    IsAdmin(t, organizationId, m) && t.memberships[m].status == Active
  }

  function OtherAdmins(t: Tables, organizationId: Id, membershipId: Id): set<Id> {
    set m | m in t.memberships && m != membershipId && IsActiveAdmin(t, organizationId, m)
  }

  function RevokeOrganizationAdmin(t: Tables, c: Command): (Tables, Outcome)
    requires c.request.Revoke?
  {
    var organizationId, m := c.request.organizationId, c.request.membershipId;
    if !IsAdmin(t, organizationId, m) || t.memberships[m].status !in {Active, Suspended} || t.memberships[m].userId !in t.users
    then (t, AdminNotFound)
    else if |OtherAdmins(t, organizationId, m)| < 1 then (t, LastAdminConflict)
    else
      var row := t.memberships[m];
      Record(t.(memberships := t.memberships[m := row.(status := Revoked)], roles := t.roles - {(m, OrganizationAdmin)}),
             c, organizationId, Some(row.userId),
             RevocationReceipt(organizationId, row.userId, t.users[row.userId].email, m))
  }

  /** What a command does once its key is known to be new. */
  ghost function Perform(t: Tables, c: Command): (Tables, Outcome) {
    match c.request
    case Create(_, _) => CreateOrganization(t, c)
    case Rename(_, _, _) => RenameOrganization(t, c)
    case Provision(_, _, _) => ProvisionInitialAdmin(t, c)
    case Revoke(_, _, _) => RevokeOrganizationAdmin(t, c)
  }

  datatype Lookup = Fresh | Conflict | Replay(result: Receipt)

  function LookupIdempotency(t: Tables, c: Command): Lookup {
    if c.IdempotencyKey() !in t.idempotency then Fresh
    else if t.idempotency[c.IdempotencyKey()].fingerprint != c.request then Conflict
    else Replay(t.idempotency[c.IdempotencyKey()].result)
  }

  /** One transaction: what is committed and what is returned. `Failed` rolls back; every other
      outcome commits whatever the statements before it wrote. */
  ghost function Transact(t: Tables, c: Command): (Tables, Outcome) {
    if c.actor !in t.operators then (t, Forbidden)
    else
      match LookupIdempotency(t, c)
      case Conflict => (t, IdempotencyConflict)
      case Replay(result) => (t, Success(result, true))
      case Fresh =>
        var (after, outcome) := Perform(t, c);
        if outcome == Failed then (t, Failed) else (after, outcome)
  }

  // ---- The repository: the same transactions, statement by statement ----

  class Repository {
    var operators: set<Id>
    var organizations: map<Id, string>
    var users: map<Id, User>
    var credentials: set<Id>
    var memberships: map<Id, Membership>
    var roles: set<(Id, RoleKey)>
    var teamMembers: set<(Id, Id, Id)>
    var audit: map<Id, AuditRow>
    var idempotency: map<Key, StoredResult>

    function Contents(): Tables
      reads this
    {
      Tables(operators, organizations, users, credentials, memberships, roles, teamMembers, audit, idempotency)
    }

    /** ROLLBACK to the tables as they were at BEGIN. */
    method Rollback(saved: Tables)
      modifies this
      ensures Contents() == saved
    {
      operators, organizations, users, credentials := saved.operators, saved.organizations, saved.users, saved.credentials;
      memberships, roles, teamMembers := saved.memberships, saved.roles, saved.teamMembers;
      audit, idempotency := saved.audit, saved.idempotency;
    }

    method Lookup(c: Command) returns (lookup: Lookup)
      ensures lookup == LookupIdempotency(Contents(), c)
    {
      if c.IdempotencyKey() !in idempotency {
        return Fresh;
      }
      var row := idempotency[c.IdempotencyKey()];
      if row.fingerprint != c.request {
        return Conflict;
      }
      return Replay(row.result);
    }

    method InsertAuditAndResult(c: Command, organizationId: Id, target: Option<Id>, result: Receipt) returns (outcome: Outcome)
      modifies this`audit, this`idempotency
      ensures outcome in {Failed, Success(result, false)}
      ensures outcome != Failed ==> (Contents(), outcome) == Record(old(Contents()), c, organizationId, target, result)
      ensures outcome == Failed ==> Record(old(Contents()), c, organizationId, target, result).1 == Failed
    {
      if c.auditId in audit {
        return Failed;
      }
      audit := audit[c.auditId := AuditRow(c.actor, c.request.Operation(), c.request.reason, organizationId, target)];
      if c.IdempotencyKey() in idempotency {
        return Failed;
      }
      idempotency := idempotency[c.IdempotencyKey() := StoredResult(c.request, result)];
      return Success(result, false);
    }

    method CreateOrganization(c: Command) returns (outcome: Outcome)
      requires c.request.Create?
      modifies this
      ensures (Contents(), outcome) == Transact(old(Contents()), c)
    {
      if c.actor !in operators {
        return Forbidden;
      }
      var saved := Contents();
      var replay := Lookup(c);
      match replay {
        case Conflict => return IdempotencyConflict;
        case Replay(result) => return Success(result, true);
        case Fresh =>
      }
      var id := c.freshOrganizationId;
      if id in organizations {
        return Failed;
      }
      organizations := organizations[id := c.request.name];
      outcome := InsertAuditAndResult(c, id, None, OrganizationReceipt(id, c.request.name));
      if outcome == Failed {
        Rollback(saved);
      }
    }

    method RenameOrganization(c: Command) returns (outcome: Outcome)
      requires c.request.Rename?
      modifies this
      ensures (Contents(), outcome) == Transact(old(Contents()), c)
    {
      if c.actor !in operators {
        return Forbidden;
      }
      var saved := Contents();
      var replay := Lookup(c);
      match replay {
        case Conflict => return IdempotencyConflict;
        case Replay(result) => return Success(result, true);
        case Fresh =>
      }
      var id := c.request.organizationId;
      if id !in organizations {
        return OrganizationNotFound;
      }
      organizations := organizations[id := c.request.name];
      outcome := InsertAuditAndResult(c, id, None, OrganizationReceipt(id, organizations[id]));
      if outcome == Failed {
        Rollback(saved);
      }
    }

    method SelectUser(email: string) returns (found: Option<Id>)
      requires Inv(Contents())
      ensures found == FindUser(Contents(), email)
      ensures found.Some? ==> found.value in users
    {
      var rows := set u | u in users && users[u].email == email;
      if rows == {} {
        found := None;
        assert forall u :: HasEmail(Contents(), u, email) ==> u in rows;
      } else {
        var u :| u in rows;
        found := Some(u);
        assert HasEmail(Contents(), u, email);
      }
    }

    method SelectMembership(organizationId: Id, userId: Id) returns (found: Option<Id>)
      requires Inv(Contents())
      ensures found == FindMembership(Contents(), organizationId, userId)
      ensures found.Some? ==> found.value in memberships
    {
      var rows := set m | m in memberships && memberships[m].organizationId == organizationId && memberships[m].userId == userId;
      if rows == {} {
        found := None;
        assert forall m :: BelongsTo(Contents(), m, organizationId, userId) ==> m in rows;
      } else {
        var m :| m in rows;
        found := Some(m);
        assert BelongsTo(Contents(), m, organizationId, userId);
      }
    }

    /** The second half of `provisionInitialAdmin`: credential, membership, roles, audit, result. */
    method GrantAdmin(c: Command, userId: Id) returns (outcome: Outcome)
      requires c.request.Provision? && Inv(Contents())
      modifies this
      ensures outcome != Failed ==> (Contents(), outcome) == ProvisionMembership(old(Contents()), c, userId)
      ensures outcome == Failed ==> ProvisionMembership(old(Contents()), c, userId).1 == Failed
    {
      var organizationId := c.request.organizationId;
      var accountSetupRequired := userId !in credentials;
      var found := SelectMembership(organizationId, userId);
      if found.Some? && memberships[found.value].status != Active {
        return MembershipStateConflict;
      }
      var membershipId := if found.Some? then found.value else c.freshMembershipId;
      if found == None {
        if membershipId in memberships {
          return Failed;
        }
        memberships := memberships[membershipId := Membership(userId, organizationId, Active)];
      }
      roles := WithoutRoles(roles, membershipId);
      roles := roles + {(membershipId, OrganizationAdmin)};
      outcome := InsertAuditAndResult(c, organizationId, Some(userId),
                                      AdminReceipt(organizationId, userId, c.request.email, membershipId, accountSetupRequired));
    }

    method ProvisionInitialAdmin(c: Command) returns (outcome: Outcome)
      requires c.request.Provision? && Inv(Contents())
      modifies this
      ensures (Contents(), outcome) == Transact(old(Contents()), c)
    {
      if c.actor !in operators {
        return Forbidden;
      }
      var saved := Contents();
      var replay := Lookup(c);
      match replay {
        case Conflict => return IdempotencyConflict;
        case Replay(result) => return Success(result, true);
        case Fresh =>
      }
      if c.request.organizationId !in organizations {
        return OrganizationNotFound;
      }
      var found := SelectUser(c.request.email);
      if found.Some? && users[found.value].status != ActiveUser {
        return UserStateConflict;
      }
      var userId := if found.Some? then found.value else c.freshUserId;
      if found == None {
        if userId in users {
          return Failed;
        }
        UserInsertKeepsInv(Contents(), c);
        users := users[userId := User(c.request.email, ActiveUser)];
      }
      outcome := GrantAdmin(c, userId);
      if outcome == Failed {
        Rollback(saved);
      }
    }

    method RevokeOrganizationAdmin(c: Command) returns (outcome: Outcome)
      requires c.request.Revoke?
      modifies this
      ensures (Contents(), outcome) == Transact(old(Contents()), c)
    {
      if c.actor !in operators {
        return Forbidden;
      }
      var saved := Contents();
      var replay := Lookup(c);
      match replay {
        case Conflict => return IdempotencyConflict;
        case Replay(result) => return Success(result, true);
        case Fresh =>
      }
      var organizationId, m := c.request.organizationId, c.request.membershipId;
      if !IsAdmin(saved, organizationId, m) || memberships[m].status !in {Active, Suspended} || memberships[m].userId !in users {
        return AdminNotFound;
      }
      var target := memberships[m];
      var otherAdminCount := |OtherAdmins(saved, organizationId, m)|;
      if otherAdminCount < 1 {
        return LastAdminConflict;
      }
      memberships := memberships[m := target.(status := Revoked)];
      roles := roles - {(m, OrganizationAdmin)};
      outcome := InsertAuditAndResult(c, organizationId, Some(target.userId),
                                      RevocationReceipt(organizationId, target.userId, users[target.userId].email, m));
      if outcome == Failed {
        Rollback(saved);
      }
    }
  }

  lemma UserInsertKeepsInv(t: Tables, c: Command)
    requires Inv(t) && c.request.Provision? && FindUser(t, c.request.email) == None && c.freshUserId !in t.users
    ensures Inv(t.(users := t.users[c.freshUserId := User(c.request.email, ActiveUser)]))
  {
    assert forall u :: u in t.users && t.users[u].email == c.request.email ==> HasEmail(t, u, c.request.email);
  }
}
