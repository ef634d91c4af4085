/** What holds over every serial run of the platform commands: a command without success changes
    nothing, and each (actor, operation, key) takes effect at most once. */
module PlatformRuns {
  import opened Common
  import opened PlatformControlPlane

  predicate IsFresh(outcome: Outcome) {
    outcome.Success? && !outcome.replayed
  }

  lemma RecordKeepsInv(t: Tables, c: Command, organizationId: Id, target: Option<Id>, result: Receipt)
    requires Inv(t)
    ensures Inv(Record(t, c, organizationId, target, result).0)
  {
  }

  lemma MembershipInsertKeepsInv(t: Tables, m: Id, userId: Id, organizationId: Id)
    requires Inv(t) && userId in t.users && m !in t.memberships && FindMembership(t, organizationId, userId) == None
    ensures Inv(t.(memberships := t.memberships[m := Membership(userId, organizationId, Active)]))
  {
    assert forall n :: n in t.memberships && SameSeat(t.memberships[n], Membership(userId, organizationId, Active)) ==>
      BelongsTo(t, n, organizationId, userId);
  }

  lemma RolesChangeKeepsInv(t: Tables, m: Id)
    requires Inv(t) && m in t.memberships
    ensures Inv(t.(roles := WithoutRoles(t.roles, m) + {(m, OrganizationAdmin)}))
  {
  }

  lemma ProvisionMembershipKeepsInv(t: Tables, c: Command, userId: Id)
    requires Inv(t) && c.request.Provision? && userId in t.users
    ensures Inv(ProvisionMembership(t, c, userId).0)
  {
    var organizationId := c.request.organizationId;
    var found := FindMembership(t, organizationId, userId);
    if found.Some? || c.freshMembershipId !in t.memberships {
      var m := if found.Some? then found.value else c.freshMembershipId;
      var joined := if found.Some? then t else t.(memberships := t.memberships[m := Membership(userId, organizationId, Active)]);
      if found == None {
        MembershipInsertKeepsInv(t, m, userId, organizationId);
      }
      assert Inv(joined) && m in joined.memberships;
      RolesChangeKeepsInv(joined, m);
      hide Inv, FindMembership, Record, WithoutRoles;
      var granted := joined.(roles := WithoutRoles(t.roles, m) + {(m, OrganizationAdmin)});
      RecordKeepsInv(granted, c, organizationId, Some(userId), AdminReceipt(organizationId, userId, c.request.email, m, userId !in t.credentials));
    }
  }

  lemma ProvisionKeepsInv(t: Tables, c: Command)
    requires Inv(t) && c.request.Provision?
    ensures Inv(ProvisionInitialAdmin(t, c).0)
  {
    hide ProvisionMembership;
    match FindUser(t, c.request.email)
    case Some(userId) => ProvisionMembershipKeepsInv(t, c, userId);
    case None =>
      if c.freshUserId !in t.users {
        UserInsertKeepsInv(t, c);
        ProvisionMembershipKeepsInv(t.(users := t.users[c.freshUserId := User(c.request.email, ActiveUser)]), c, c.freshUserId);
      }
  }

  lemma RevokeKeepsInv(t: Tables, c: Command)
    requires Inv(t) && c.request.Revoke?
    ensures Inv(RevokeOrganizationAdmin(t, c).0)
  {
  }

  /** The constraints of the schema survive every transaction. */
  lemma TransactKeepsInv(t: Tables, c: Command)
    requires Inv(t)
    ensures Inv(Transact(t, c).0)
  {
    hide ProvisionInitialAdmin;
    hide RevokeOrganizationAdmin;
    match c.request
    case Create(_, _) =>
    case Rename(_, _, _) =>
    case Provision(_, _, _) => ProvisionKeepsInv(t, c);
    case Revoke(_, _, _) => RevokeKeepsInv(t, c);
  }

  /** A user inserted by `provisionInitialAdmin` has no membership yet, so the membership check
      that comes after the insert cannot refuse. */
  lemma NewUserHasNoMembership(t: Tables, c: Command)
    requires Inv(t) && c.request.Provision? && c.freshUserId !in t.users
    ensures FindMembership(t.(users := t.users[c.freshUserId := User(c.request.email, ActiveUser)]),
                           c.request.organizationId, c.freshUserId) == None
  {
  }

  /** Only a fresh success writes: a replay and every outcome that is not a success commit the
      tables they started from. */
  lemma OnlyFreshSuccessWrites(t: Tables, c: Command)
    requires Inv(t)
    ensures !IsFresh(Transact(t, c).1) ==> Transact(t, c).0 == t
  {
    if c.request.Provision? && c.freshUserId !in t.users {
      NewUserHasNoMembership(t, c);
    }
  }

  /** Without the foreign key from memberships to users the same transaction does commit a new
      user together with a conflict. */
  lemma DanglingMembershipLeaksUser()
    ensures exists t: Tables, c: Command :: Transact(t, c).1 == MembershipStateConflict && Transact(t, c).0 != t
  {
    var t := Tables({"op"}, map["org" := "Org"], map[], {}, map["m" := Membership("u", "org", Revoked)], {}, {}, map[], map[]);
    var c := Command("op", "key", Provision("org", "a@b.c", "reason"), "audit", "o", "u", "n");
    var t1 := t.(users := t.users[c.freshUserId := User(c.request.email, ActiveUser)]);
    assert forall u :: !HasEmail(t, u, "a@b.c");
    assert BelongsTo(t1, "m", "org", "u");
    assert forall m :: BelongsTo(t1, m, "org", "u") ==> m == "m";
    assert ProvisionMembership(t1, c, "u") == (t1, MembershipStateConflict);
    assert "u" in t1.users && "u" !in t.users;
    assert Transact(t, c) == (t1, MembershipStateConflict);
  }

  ghost predicate Audits(row: AuditRow, c: Command) {
    row.actor == c.actor && row.operation == c.request.Operation() && row.reason == c.request.reason
  }

  /** `after` has one audit row and one idempotency row more than `t`, both for this command. */
  ghost predicate Recorded(t: Tables, c: Command, after: Tables, result: Receipt) {
    && after.operators == t.operators
    && c.IdempotencyKey() !in t.idempotency && c.auditId !in t.audit
    && after.idempotency == t.idempotency[c.IdempotencyKey() := StoredResult(c.request, result)]
    && c.auditId in after.audit && Audits(after.audit[c.auditId], c)
    && after.audit == t.audit[c.auditId := after.audit[c.auditId]]
  }

  lemma ProvisionMembershipRecords(t: Tables, t1: Tables, c: Command, userId: Id)
    requires t1.audit == t.audit && t1.idempotency == t.idempotency && t1.operators == t.operators && c.request.Provision?
    ensures var (after, outcome) := ProvisionMembership(t1, c, userId);
            outcome.Success? ==> IsFresh(outcome) && Recorded(t, c, after, outcome.result)
  {
  }

  lemma PerformRecords(t: Tables, c: Command)
    ensures var (after, outcome) := Perform(t, c);
            outcome.Success? ==> IsFresh(outcome) && Recorded(t, c, after, outcome.result)
  {
    hide ProvisionMembership;
    if c.request.Provision? {
      match FindUser(t, c.request.email)
      case Some(userId) => ProvisionMembershipRecords(t, t, c, userId);
      case None =>
        ProvisionMembershipRecords(t, t.(users := t.users[c.freshUserId := User(c.request.email, ActiveUser)]), c, c.freshUserId);
    }
  }

  /** A fresh success adds exactly one audit row and one idempotency row, both for this command. */
  lemma FreshSuccessRecords(t: Tables, c: Command)
    requires IsFresh(Transact(t, c).1)
    ensures c.actor in t.operators && Recorded(t, c, Transact(t, c).0, Transact(t, c).1.result)
  {
    hide Perform;
    PerformRecords(t, c);
  }

  /** Once a key has a row, its outcome is decided by the row. */
  lemma KnownKeyIsDecided(t: Tables, c: Command)
    requires c.actor in t.operators && c.IdempotencyKey() in t.idempotency
    ensures var row := t.idempotency[c.IdempotencyKey()];
            Transact(t, c) == (t, if row.fingerprint == c.request then Success(row.result, true) else IdempotencyConflict)
  {
  }

  // ---- What a fresh success means for the tables ----

  ghost predicate SameOutside(t: Tables, after: Tables, m: Id) {
    && (forall n :: n != m ==> (n in after.memberships <==> n in t.memberships))
    && (forall n :: n != m && n in t.memberships ==> after.memberships[n] == t.memberships[n])
    && (forall n, role :: n != m ==> ((n, role) in after.roles <==> (n, role) in t.roles))
    && after.teamMembers == t.teamMembers && after.organizations == t.organizations && after.credentials == t.credentials
  }

  /** The membership of the receipt is active, belongs to its user and organization, and has the
      administrator role only; every other membership is as it was. */
  ghost predicate Grants(t: Tables, after: Tables, r: Receipt) {
    && r.AdminReceipt?
    && BelongsTo(after, r.membershipId, r.organizationId, r.userId)
    && after.memberships[r.membershipId].status == Active
    && (forall role :: (r.membershipId, role) in after.roles <==> role == OrganizationAdmin)
    && (r.membershipId in t.memberships ==> after.memberships[r.membershipId] == t.memberships[r.membershipId])
    && (r.accountSetupRequired <==> r.userId !in t.credentials)
    && SameOutside(t, after, r.membershipId)
  }

  lemma ProvisionMembershipGrants(t: Tables, c: Command, userId: Id)
    requires Inv(t) && c.request.Provision? && ProvisionMembership(t, c, userId).1.Success?
    ensures var (after, outcome) := ProvisionMembership(t, c, userId);
            && Grants(t, after, outcome.result) && after.users == t.users
            && outcome.result.organizationId == c.request.organizationId && outcome.result.email == c.request.email
            && outcome.result.userId == userId
  {
  }

  lemma FoundUserHasEmail(t: Tables, email: string)
    ensures FindUser(t, email).Some? ==> HasEmail(t, FindUser(t, email).value, email)
  {
  }

  lemma ActiveUserStays(t: Tables, userId: Id, email: string)
    requires HasEmail(t, userId, email) && t.users[userId].status == ActiveUser
    ensures t.users == t.users[userId := User(email, ActiveUser)]
  {
  }

  /** Provisioning makes the active user with that address, created if there is none, an active
      administrator; a membership they already have in the organization is the one used. */
  lemma ProvisionGrants(t: Tables, c: Command)
    requires Inv(t) && c.request.Provision? && IsFresh(Transact(t, c).1)
    ensures var after, r := Transact(t, c).0, Transact(t, c).1.result;
            && Grants(t, after, r) && r.organizationId == c.request.organizationId
            && after.users == t.users[r.userId := User(c.request.email, ActiveUser)]
            && (HasEmail(t, r.userId, c.request.email) || (r.userId == c.freshUserId && r.userId !in t.users))
            && (r.membershipId in t.memberships || r.membershipId == c.freshMembershipId)
  {
    hide ProvisionMembership, Grants, Inv;
    FoundUserHasEmail(t, c.request.email);
    match FindUser(t, c.request.email)
    case Some(userId) => ProvisionMembershipGrants(t, c, userId); ProvisionKeepsIds(t, c, userId);
      ActiveUserStays(t, userId, c.request.email);
    case None =>
      var t1 := t.(users := t.users[c.freshUserId := User(c.request.email, ActiveUser)]);
      UserInsertKeepsInv(t, c);
      ProvisionMembershipGrants(t1, c, c.freshUserId);
      ProvisionKeepsIds(t1, c, c.freshUserId);
      GrantsIgnoresUsers(t, t1.users, Transact(t, c).0, Transact(t, c).1.result);
  }

  lemma GrantsIgnoresUsers(t: Tables, users: map<Id, User>, after: Tables, r: Receipt)
    requires Grants(t.(users := users), after, r)
    ensures Grants(t, after, r)
  {
  }

  lemma ProvisionKeepsIds(t: Tables, c: Command, userId: Id)
    requires c.request.Provision? && ProvisionMembership(t, c, userId).1.Success?
    ensures var r := ProvisionMembership(t, c, userId).1.result;
            r.AdminReceipt? && (r.membershipId in t.memberships || r.membershipId == c.freshMembershipId)
  {
  }

  /** A revocation needs another active administrator, and takes exactly one membership away. */
  lemma RevokeRemoves(t: Tables, c: Command)
    requires Inv(t) && c.request.Revoke? && IsFresh(Transact(t, c).1)
    ensures var after, m := Transact(t, c).0, c.request.membershipId;
            && IsAdmin(t, c.request.organizationId, m) && !IsAdmin(after, c.request.organizationId, m)
            && after.memberships[m] == t.memberships[m].(status := Revoked)
            && (exists n :: n != m && IsActiveAdmin(t, c.request.organizationId, n) && IsActiveAdmin(after, c.request.organizationId, n))
            && after.users == t.users && SameOutside(t, after, m)
            && (forall role :: role != OrganizationAdmin ==> ((m, role) in after.roles <==> (m, role) in t.roles))
  {
    hide Inv;
    var others := OtherAdmins(t, c.request.organizationId, c.request.membershipId);
    assert others != {};
    var n :| n in others;
    assert IsActiveAdmin(Transact(t, c).0, c.request.organizationId, n);
  }

  /** Creating adds one organization, renaming replaces one name; nothing else moves. */
  lemma NamesOrganization(t: Tables, c: Command)
    requires (c.request.Create? || c.request.Rename?) && IsFresh(Transact(t, c).1)
    ensures var after, r := Transact(t, c).0, Transact(t, c).1.result;
            && r == OrganizationReceipt(if c.request.Create? then c.freshOrganizationId else c.request.organizationId, c.request.name)
            && (r.id in t.organizations <==> c.request.Rename?)
            && after.organizations == t.organizations[r.id := r.name]
            && after.users == t.users && after.memberships == t.memberships && after.roles == t.roles
  {
  }

  // ---- Runs ----

  ghost function Run(t: Tables, cs: seq<Command>): (Tables, seq<Outcome>)
    decreases |cs|
  {
    if cs == [] then (t, [])
    else
      var (next, outcome) := Transact(t, cs[0]);
      var (last, outcomes) := Run(next, cs[1..]);
      (last, [outcome] + outcomes)
  }

  lemma {:induction false} RunShape(t: Tables, cs: seq<Command>)
    requires Inv(t)
    ensures |Run(t, cs).1| == |cs| && Inv(Run(t, cs).0) && Run(t, cs).0.operators == t.operators
    decreases |cs|
  {
    hide Transact;
    if cs != [] {
      TransactKeepsInv(t, cs[0]);
      if IsFresh(Transact(t, cs[0]).1) {
        FreshSuccessRecords(t, cs[0]);
      } else {
        OnlyFreshSuccessWrites(t, cs[0]);
      }
      RunShape(Transact(t, cs[0]).0, cs[1..]);
    }
  }

  /** Rows are only ever added, and each success agrees with the row kept for its key. */
  lemma {:induction false} RowsAreKept(t: Tables, cs: seq<Command>)
    requires Inv(t)
    ensures |Run(t, cs).1| == |cs|
    ensures forall key :: key in t.idempotency ==> key in Run(t, cs).0.idempotency && Run(t, cs).0.idempotency[key] == t.idempotency[key]
    ensures forall id :: id in t.audit ==> id in Run(t, cs).0.audit && Run(t, cs).0.audit[id] == t.audit[id]
    ensures forall i :: 0 <= i < |cs| && Run(t, cs).1[i].Success? ==>
              && cs[i].IdempotencyKey() in Run(t, cs).0.idempotency
              && Run(t, cs).0.idempotency[cs[i].IdempotencyKey()] == StoredResult(cs[i].request, Run(t, cs).1[i].result)
    decreases |cs|
  {
    hide Transact;
    if cs != [] {
      RunShape(t, cs);
      TransactKeepsInv(t, cs[0]);
      StepRows(t, cs[0]);
      RowsAreKept(Transact(t, cs[0]).0, cs[1..]);
      var (last, outcomes) := Run(t, cs);
      forall i | 0 <= i < |cs| && outcomes[i].Success?
        ensures cs[i].IdempotencyKey() in last.idempotency
        ensures last.idempotency[cs[i].IdempotencyKey()] == StoredResult(cs[i].request, outcomes[i].result)
      {
        if i > 0 {
          assert cs[i] == cs[1..][i - 1];
        }
      }
    }
  }

  lemma StepRows(t: Tables, c: Command)
    requires Inv(t)
    ensures forall key :: key in t.idempotency ==> key in Transact(t, c).0.idempotency && Transact(t, c).0.idempotency[key] == t.idempotency[key]
    ensures forall id :: id in t.audit ==> id in Transact(t, c).0.audit && Transact(t, c).0.audit[id] == t.audit[id]
    ensures Transact(t, c).1.Success? ==>
              && c.IdempotencyKey() in Transact(t, c).0.idempotency
              && Transact(t, c).0.idempotency[c.IdempotencyKey()] == StoredResult(c.request, Transact(t, c).1.result)
  {
    if IsFresh(Transact(t, c).1) {
      FreshSuccessRecords(t, c);
    } else {
      OnlyFreshSuccessWrites(t, c);
    }
  }

  /** Each fresh success has its own key and its own audit row, new to the run and kept by it. */
  lemma {:induction false} FreshSuccessesAreDistinct(t: Tables, cs: seq<Command>)
    requires Inv(t)
    ensures |Run(t, cs).1| == |cs|
    ensures forall i :: 0 <= i < |cs| && IsFresh(Run(t, cs).1[i]) ==>
              && cs[i].IdempotencyKey() !in t.idempotency && cs[i].auditId !in t.audit
              && cs[i].auditId in Run(t, cs).0.audit && Audits(Run(t, cs).0.audit[cs[i].auditId], cs[i])
    ensures forall i, j :: 0 <= i < j < |cs| && IsFresh(Run(t, cs).1[i]) && IsFresh(Run(t, cs).1[j]) ==>
              cs[i].IdempotencyKey() != cs[j].IdempotencyKey() && cs[i].auditId != cs[j].auditId
    decreases |cs|
  {
    hide Transact;
    if cs != [] {
      RunShape(t, cs);
      TransactKeepsInv(t, cs[0]);
      StepRows(t, cs[0]);
      var next := Transact(t, cs[0]).0;
      FreshSuccessesAreDistinct(next, cs[1..]);
      RowsAreKept(next, cs[1..]);
      if IsFresh(Transact(t, cs[0]).1) {
        FreshSuccessRecords(t, cs[0]);
      }
      var outcomes := Run(t, cs).1;
      forall i | 0 <= i < |cs| && IsFresh(outcomes[i])
        ensures cs[i].IdempotencyKey() !in t.idempotency && cs[i].auditId !in t.audit
        ensures cs[i].auditId in Run(t, cs).0.audit && Audits(Run(t, cs).0.audit[cs[i].auditId], cs[i])
        ensures i > 0 ==> cs[i].IdempotencyKey() !in next.idempotency && cs[i].auditId !in next.audit
      {
        if i > 0 {
          assert cs[i] == cs[1..][i - 1];
        }
      }
      forall i, j | 0 <= i < j < |cs| && IsFresh(outcomes[i]) && IsFresh(outcomes[j])
        ensures cs[i].IdempotencyKey() != cs[j].IdempotencyKey() && cs[i].auditId != cs[j].auditId
      {
        if i > 0 {
          assert cs[i] == cs[1..][i - 1] && cs[j] == cs[1..][j - 1];
        }
      }
    }
  }

  function CountFresh(outcomes: seq<Outcome>): nat {
    if outcomes == [] then 0 else (if IsFresh(outcomes[0]) then 1 else 0) + CountFresh(outcomes[1..])
  }

  /** Idempotency rows, audit rows and fresh successes grow together. */
  lemma {:induction false} RowsMatchFreshSuccesses(t: Tables, cs: seq<Command>)
    requires Inv(t)
    ensures |Run(t, cs).0.idempotency| == |t.idempotency| + CountFresh(Run(t, cs).1)
    ensures |Run(t, cs).0.audit| == |t.audit| + CountFresh(Run(t, cs).1)
    decreases |cs|
  {
    hide Transact;
    if cs != [] {
      var (next, outcome) := Transact(t, cs[0]);
      TransactKeepsInv(t, cs[0]);
      if IsFresh(outcome) {
        FreshSuccessRecords(t, cs[0]);
      } else {
        OnlyFreshSuccessWrites(t, cs[0]);
      }
      RowsMatchFreshSuccesses(next, cs[1..]);
      assert Run(t, cs).1[1..] == Run(next, cs[1..]).1;
    }
  }

  /** Whenever a key succeeds twice, the later answer is the stored one, marked as replayed; and
      once it has succeeded, a different request for it is a conflict. */
  lemma {:induction false} LaterAnswersReplay(t: Tables, cs: seq<Command>, i: nat, j: nat)
    requires Inv(t) && i < j < |cs| && cs[i].IdempotencyKey() == cs[j].IdempotencyKey()
    requires |Run(t, cs).1| == |cs| && Run(t, cs).1[i].Success?
    ensures Run(t, cs).1[j] == if cs[j].request == cs[i].request then Success(Run(t, cs).1[i].result, true) else IdempotencyConflict
  {
    hide Transact;
    RunSplit(t, cs, j);
    RowsAreKept(t, cs[..j]);
    RunShape(t, cs[..j]);
    var at := Run(t, cs[..j]).0;
    assert cs[..j][i] == cs[i];
    assert Run(t, cs[..j]).1[i] == Run(t, cs).1[i];
    SuccessNeedsOperator(t, cs[..j], i);
    KnownKeyIsDecided(at, cs[j]);
  }

  lemma {:induction false} RunSplit(t: Tables, cs: seq<Command>, j: nat)
    requires Inv(t) && j < |cs|
    ensures |Run(t, cs).1| == |cs| && |Run(t, cs[..j]).1| == j
    ensures Run(t, cs).1[..j] == Run(t, cs[..j]).1
    ensures Run(t, cs).1[j] == Transact(Run(t, cs[..j]).0, cs[j]).1
    decreases |cs|
  {
    hide Transact, Inv;
    RunShape(t, cs);
    RunShape(t, cs[..j]);
    if j > 0 {
      TransactKeepsInv(t, cs[0]);
      RunSplit(Transact(t, cs[0]).0, cs[1..], j - 1);
      assert cs[..j][1..] == cs[1..][..j - 1];
    }
  }

  lemma {:induction false} SuccessNeedsOperator(t: Tables, cs: seq<Command>, i: nat)
    requires Inv(t) && i < |cs| && |Run(t, cs).1| == |cs| && Run(t, cs).1[i].Success?
    ensures cs[i].actor in t.operators
  {
    RunSplit(t, cs, i);
    RunShape(t, cs[..i]);
  }

  ghost function Effective(t: Tables, cs: seq<Command>): seq<Command>
    decreases |cs|
  {
    if cs == [] then []
    else (if IsFresh(Transact(t, cs[0]).1) then [cs[0]] else []) + Effective(Transact(t, cs[0]).0, cs[1..])
  }

  /** A run ends as if only its fresh successes had been submitted: there each key occurs once and
      every command succeeds afresh. */
  lemma {:induction false} EveryKeyExecutesOnce(t: Tables, cs: seq<Command>)
    requires Inv(t)
    ensures Run(t, Effective(t, cs)).0 == Run(t, cs).0
    ensures forall outcome :: outcome in Run(t, Effective(t, cs)).1 ==> IsFresh(outcome)
    ensures forall i, j :: 0 <= i < j < |Effective(t, cs)| ==>
              Effective(t, cs)[i].IdempotencyKey() != Effective(t, cs)[j].IdempotencyKey()
    decreases |cs|
  {
    hide Transact;
    if cs != [] {
      var (next, outcome) := Transact(t, cs[0]);
      TransactKeepsInv(t, cs[0]);
      OnlyFreshSuccessWrites(t, cs[0]);
      EveryKeyExecutesOnce(next, cs[1..]);
      var rest := Effective(next, cs[1..]);
      if IsFresh(outcome) {
        assert Effective(t, cs)[1..] == rest;
        assert Run(t, Effective(t, cs)).1 == [outcome] + Run(next, rest).1;
      } else {
        assert Effective(t, cs) == rest;
      }
    }
    AllFreshAreDistinct(t, Effective(t, cs));
  }

  lemma {:induction false} AllFreshAreDistinct(t: Tables, cs: seq<Command>)
    requires Inv(t) && forall outcome :: outcome in Run(t, cs).1 ==> IsFresh(outcome)
    ensures forall i, j :: 0 <= i < j < |cs| ==> cs[i].IdempotencyKey() != cs[j].IdempotencyKey()
  {
    FreshSuccessesAreDistinct(t, cs);
  }
}
