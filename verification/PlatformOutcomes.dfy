/** When each platform command ends how, as conditions on the rows alone, and what a success answers
    and records. */
module PlatformOutcomes {
  import opened Common
  import opened PlatformControlPlane
  import opened PlatformRuns

  /** The actor may act, and the key has not been used for this operation. */
  predicate IsNew(t: Tables, c: Command, operation: Operation) {
    c.actor in t.operators && Key(c.actor, operation, c.token) !in t.idempotency
  }

  /** The audit row and the stored result of a fresh success. */
  ghost predicate Logs(after: Tables, c: Command, operation: Operation, organizationId: Id, target: Option<Id>, result: Receipt) {
    && c.auditId in after.audit
    && after.audit[c.auditId] == AuditRow(actor := c.actor, operation := operation, reason := c.request.reason,
                                          organizationId := organizationId, target := target)
    && Key(c.actor, operation, c.token) in after.idempotency
    && after.idempotency[Key(c.actor, operation, c.token)] == StoredResult(fingerprint := c.request, result := result)
  }

  /** Who is not an operator changes nothing, whatever the command. */
  lemma OnlyOperatorsAct(t: Tables, c: Command)
    ensures Transact(t, c).1 == Forbidden <==> c.actor !in t.operators
    ensures c.actor !in t.operators ==> Transact(t, c).0 == t
  {
    hide FindUser, FindMembership;
  }

  /** Creating succeeds iff the identifiers are unused. */
  lemma CreationEnds(t: Tables, c: Command)
    requires c.request.Create? && IsNew(t, c, CreateOp)
    ensures var (after, outcome) := Transact(t, c);
            var receipt := OrganizationReceipt(id := c.freshOrganizationId, name := c.request.name);
            && outcome == (if c.freshOrganizationId in t.organizations || c.auditId in t.audit then Failed else Success(receipt, false))
            && (outcome != Failed ==> Logs(after, c, CreateOp, c.freshOrganizationId, None, receipt))
  {
  }

  /** Renaming finds nothing iff there is no such organization, and succeeds iff there is. */
  lemma RenamingEnds(t: Tables, c: Command)
    requires c.request.Rename? && IsNew(t, c, RenameOp)
    ensures var (after, outcome) := Transact(t, c);
            var receipt := OrganizationReceipt(id := c.request.organizationId, name := c.request.name);
            && (outcome == OrganizationNotFound <==> c.request.organizationId !in t.organizations)
            && (outcome == Success(receipt, false) <==> c.request.organizationId in t.organizations && c.auditId !in t.audit)
            && (outcome in {OrganizationNotFound, Failed} || (outcome == Success(receipt, false) && Logs(after, c, RenameOp, c.request.organizationId, None, receipt)))
  {
  }

  // ---- Revocation ----

  /** The membership carries the administrator role in the organization. */
  predicate Administers(t: Tables, organizationId: Id, m: Id) {
    m in t.memberships && t.memberships[m].organizationId == organizationId && (m, OrganizationAdmin) in t.roles
  }

  /** It is an active or suspended administrator whose user has a row. */
  predicate Revocable(t: Tables, organizationId: Id, m: Id) {
    Administers(t, organizationId, m) && (t.memberships[m].status == Active || t.memberships[m].status == Suspended)
    && t.memberships[m].userId in t.users
  }

  ghost predicate SomeoneElseAdministers(t: Tables, organizationId: Id, m: Id) {
    exists n :: n != m && Administers(t, organizationId, n) && t.memberships[n].status == Active
  }

  lemma OthersIff(t: Tables, organizationId: Id, m: Id)
    ensures |OtherAdmins(t, organizationId, m)| < 1 <==> !SomeoneElseAdministers(t, organizationId, m)
  {
    var others := OtherAdmins(t, organizationId, m);
    if n :| n != m && Administers(t, organizationId, n) && t.memberships[n].status == Active {
      assert n in others;
    } else {
      assert others == {};
    }
  }

  /** A revocation succeeds iff the membership can be revoked and someone else stays; it is refused as
      the last one iff only the latter fails. */
  lemma RevocationEnds(t: Tables, c: Command)
    requires c.request.Revoke? && IsNew(t, c, RevokeOp)
    ensures var (after, outcome) := Transact(t, c);
            var organizationId, m := c.request.organizationId, c.request.membershipId;
            && (outcome == AdminNotFound <==> !Revocable(t, organizationId, m))
            && (outcome == LastAdminConflict <==> Revocable(t, organizationId, m) && !SomeoneElseAdministers(t, organizationId, m))
            && (IsFresh(outcome) <==> Revocable(t, organizationId, m) && SomeoneElseAdministers(t, organizationId, m) && c.auditId !in t.audit)
            && (outcome in {AdminNotFound, LastAdminConflict, Failed} || IsFresh(outcome))
            && (IsFresh(outcome) ==>
                  var userId := t.memberships[m].userId;
                  var receipt := RevocationReceipt(organizationId := organizationId, userId := userId, email := t.users[userId].email, membershipId := m);
                  outcome.result == receipt && Logs(after, c, RevokeOp, organizationId, Some(userId), receipt))
  {
    OthersIff(t, c.request.organizationId, c.request.membershipId);
    hide OtherAdmins, SomeoneElseAdministers;
  }

  // ---- Provisioning ----

  ghost predicate HasUser(t: Tables, email: string, active: bool) {
    exists u :: u in t.users && t.users[u].email == email && (t.users[u].status == ActiveUser <==> active)
  }

  /** The user with this address has a seat in the organization that is active, or not. */
  ghost predicate HasSeat(t: Tables, organizationId: Id, email: string, active: bool) {
    exists m :: Seat(t, m, organizationId, email) && (t.memberships[m].status == Active <==> active)
  }

  ghost predicate Seat(t: Tables, m: Id, organizationId: Id, email: string) {
    m in t.memberships && t.memberships[m].organizationId == organizationId
    && t.memberships[m].userId in t.users && t.users[t.memberships[m].userId].email == email
  }

  lemma FoundUser(t: Tables, email: string)
    requires Inv(t)
    ensures FindUser(t, email) == None <==> !HasUser(t, email, true) && !HasUser(t, email, false)
    ensures FindUser(t, email).Some? ==>
              var u := FindUser(t, email).value;
              u in t.users && t.users[u].email == email
              && (HasUser(t, email, true) <==> t.users[u].status == ActiveUser) && (HasUser(t, email, false) <==> t.users[u].status != ActiveUser)
  {
    assert forall u :: u in t.users && t.users[u].email == email ==> HasEmail(t, u, email);
    if u :| HasEmail(t, u, email) {
      assert HasUser(t, email, t.users[u].status == ActiveUser);
    }
  }

  lemma FoundSeat(t: Tables, organizationId: Id, u: Id)
    requires Inv(t) && u in t.users
    ensures var email, found := t.users[u].email, FindMembership(t, organizationId, u);
            && (found == None <==> !HasSeat(t, organizationId, email, true) && !HasSeat(t, organizationId, email, false))
            && (found.Some? ==>
                  Seat(t, found.value, organizationId, email)
                  && (HasSeat(t, organizationId, email, true) <==> t.memberships[found.value].status == Active)
                  && (HasSeat(t, organizationId, email, false) <==> t.memberships[found.value].status != Active))
  {
    var email, found := t.users[u].email, FindMembership(t, organizationId, u);
    forall m | Seat(t, m, organizationId, email)
      ensures BelongsTo(t, m, organizationId, u)
    {
    }
    if found.Some? {
      assert HasSeat(t, organizationId, email, t.memberships[found.value].status == Active);
    }
  }

  /** The identifiers that provisioning would need are unused. */
  ghost predicate IdentifiersUnused(t: Tables, c: Command)
    requires c.request.Provision?
  {
    && c.auditId !in t.audit
    && (HasUser(t, c.request.email, true) || c.freshUserId !in t.users)
    && (HasSeat(t, c.request.organizationId, c.request.email, true) || c.freshMembershipId !in t.memberships)
  }

  /** What a success answers and records: the user with the address, their seat, and whether they still
      need a password. */
  ghost predicate Provisioned(t: Tables, c: Command, after: Tables, outcome: Outcome)
    requires c.request.Provision?
  {
    && outcome.Success? && outcome.result.AdminReceipt?
    && var r := outcome.result;
       && r.userId in after.users && after.users[r.userId] == User(email := c.request.email, status := ActiveUser)
       && r.membershipId in after.memberships
       && after.memberships[r.membershipId] == Membership(userId := r.userId, organizationId := c.request.organizationId, status := Active)
       && r == AdminReceipt(organizationId := c.request.organizationId, userId := r.userId, email := c.request.email,
                            membershipId := r.membershipId, accountSetupRequired := r.userId !in t.credentials)
       && Logs(after, c, ProvisionOp, c.request.organizationId, Some(r.userId), r)
  }

  lemma SeatOutcome(t: Tables, t1: Tables, c: Command, u: Id)
    requires c.request.Provision? && u in t1.users && t1.users[u] == User(c.request.email, ActiveUser)
    requires t1 == t.(users := t1.users) && IsNew(t, c, ProvisionOp)
    ensures var (after, outcome) := ProvisionMembership(t1, c, u);
            var found := FindMembership(t1, c.request.organizationId, u);
            && (outcome == MembershipStateConflict <==> found.Some? && t1.memberships[found.value].status != Active)
            && (outcome == Failed <==> !(found.Some? && t1.memberships[found.value].status != Active)
                                       && ((found == None && c.freshMembershipId in t.memberships) || c.auditId in t.audit))
            && (outcome !in {MembershipStateConflict, Failed} ==> IsFresh(outcome) && Provisioned(t, c, after, outcome))
  {
    var found := FindMembership(t1, c.request.organizationId, u);
    assert found == None || BelongsTo(t1, found.value, c.request.organizationId, u);
  }

  /** Provisioning ends by the first of these that holds: no such organization, a user with the address
      who is not active, a seat of the user that is not active, an identifier in use; else it succeeds. */
  lemma ProvisioningEnds(t: Tables, c: Command)
    requires Inv(t) && c.request.Provision? && IsNew(t, c, ProvisionOp)
    ensures var (after, outcome) := Transact(t, c);
            var organizationId, email := c.request.organizationId, c.request.email;
            if organizationId !in t.organizations then outcome == OrganizationNotFound
            else if HasUser(t, email, false) then outcome == UserStateConflict
            else if HasSeat(t, organizationId, email, false) then outcome == MembershipStateConflict
            else if !IdentifiersUnused(t, c) then outcome == Failed
            else IsFresh(outcome) && Provisioned(t, c, after, outcome)
  {
    var email := c.request.email;
    FoundUser(t, email);
    hide Inv, ProvisionMembership, Provisioned, FindUser, HasUser;
    match FindUser(t, email)
    case Some(u) =>
      FoundSeat(t, c.request.organizationId, u);
      if t.users[u].status == ActiveUser {
        SeatOutcome(t, t, c, u);
      }
      hide HasSeat;
    case None =>
      NoSeatWithoutUser(t, c);
      if c.freshUserId !in t.users {
        var t1 := t.(users := t.users[c.freshUserId := User(email, ActiveUser)]);
        NewUserHasNoMembership(t, c);
        SeatOutcome(t, t1, c, c.freshUserId);
      }
      hide HasSeat;
  }

  lemma NoSeatWithoutUser(t: Tables, c: Command)
    requires c.request.Provision? && !HasUser(t, c.request.email, true) && !HasUser(t, c.request.email, false)
    ensures !HasSeat(t, c.request.organizationId, c.request.email, true) && !HasSeat(t, c.request.organizationId, c.request.email, false)
  {
    forall u | u in t.users
      ensures t.users[u].email != c.request.email
    {
      assert !HasUser(t, c.request.email, t.users[u].status == ActiveUser);
    }
  }
}
