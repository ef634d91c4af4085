/** The membership commands of modules/organization-administration/src/index.ts, and last-admin
    protection over serial runs of both repositories. */
module OrganizationAdministration {
  import opened Common
  import opened PlatformControlPlane
  import opened PlatformRuns

  /** The roles that a tenant may assign. */
  type TenantRole = role: RoleKey | role != OrganizationAdmin witness Member

  /** `None` is a refused statement: the transaction rolls back. */
  type Reply = Option<bool>

  /** The trigger on membership updates. */
  predicate AllowedTransition(before: Standing, after: Standing) {
    || before == after
    || (before == Invited && after in {Active, Revoked})
    || (before == Active && after in {Suspended, Revoked})
    || (before == Suspended && after in {Active, Revoked})
  }

  /** The rows that `updateMembership` changes: an administrator's membership is not among them. */
  predicate Updatable(t: Tables, organizationId: Id, m: Id) {
    m in t.memberships && t.memberships[m].organizationId == organizationId && (m, OrganizationAdmin) !in t.roles
  }

  function WithoutTeams(rows: set<(Id, Id, Id)>, organizationId: Id, m: Id): set<(Id, Id, Id)> {
    set row | row in rows && !(row.0 == organizationId && row.2 == m)
  }

  function UpdateMembership(t: Tables, organizationId: Id, m: Id, status: Standing): (Tables, Reply) {
    var matched := Updatable(t, organizationId, m);
    if matched && !AllowedTransition(t.memberships[m].status, status) then (t, None)
    else
      var memberships := if matched then t.memberships[m := t.memberships[m].(status := status)] else t.memberships;
      var teamMembers := if status in {Revoked, Suspended} then WithoutTeams(t.teamMembers, organizationId, m) else t.teamMembers;
      (t.(memberships := memberships, teamMembers := teamMembers), Some(matched))
  }

  function RolesOf(m: Id, roleKeys: seq<TenantRole>): set<(Id, RoleKey)> {
    set role | role in roleKeys :: (m, role)
  }

  function ReplaceMembershipRoles(t: Tables, organizationId: Id, m: Id, roleKeys: seq<TenantRole>): (Tables, Reply) {
    if !(Updatable(t, organizationId, m) && t.memberships[m].status == Active) then (t, Some(false))
    else (t.(roles := WithoutRoles(t.roles, m) + RolesOf(m, roleKeys)), Some(true))
  }

  method UpdateMembershipStatements(db: Repository, organizationId: Id, m: Id, status: Standing) returns (reply: Reply)
    modifies db
    ensures (db.Contents(), reply) == UpdateMembership(old(db.Contents()), organizationId, m, status)
  {
    var matched := Updatable(db.Contents(), organizationId, m);
    if matched {
      if !AllowedTransition(db.memberships[m].status, status) {
        return None;
      }
      db.memberships := db.memberships[m := db.memberships[m].(status := status)];
    }
    if status == Revoked || status == Suspended {
      db.teamMembers := WithoutTeams(db.teamMembers, organizationId, m);
    }
    return Some(matched);
  }

  method ReplaceMembershipRolesStatements(db: Repository, organizationId: Id, m: Id, roleKeys: seq<TenantRole>) returns (reply: Reply)
    modifies db
    ensures (db.Contents(), reply) == ReplaceMembershipRoles(old(db.Contents()), organizationId, m, roleKeys)
  {
    if !(Updatable(db.Contents(), organizationId, m) && db.memberships[m].status == Active) {
      return Some(false);
    }
    db.roles := WithoutRoles(db.roles, m);
    ghost var kept := db.roles;
    var i := 0;
    while i < |roleKeys|
      invariant 0 <= i <= |roleKeys|
      invariant db.Contents() == old(db.Contents()).(roles := kept + RolesOf(m, roleKeys[..i]))
    {
      db.roles := db.roles + {(m, roleKeys[i])};
      assert roleKeys[..i + 1] == roleKeys[..i] + [roleKeys[i]];
      i := i + 1;
    }
    assert roleKeys[..i] == roleKeys;
    return Some(true);
  }

  // ---- "false" does not mean that nothing changed ----

  /** `updateMembership` that reports no updated row leaves memberships and roles alone, but it
      still deletes team rows: nothing changed exactly if it was not asked to suspend or revoke,
      or the membership sits in no team of the organization. */
  lemma FalseUpdateChangesTeamsOnly(t: Tables, organizationId: Id, m: Id, status: Standing)
    requires UpdateMembership(t, organizationId, m, status).1 == Some(false)
    ensures UpdateMembership(t, organizationId, m, status).0.memberships == t.memberships
    ensures UpdateMembership(t, organizationId, m, status).0.roles == t.roles
    ensures UpdateMembership(t, organizationId, m, status).0 == t <==>
            status !in {Revoked, Suspended} || forall row :: row in t.teamMembers ==> !(row.0 == organizationId && row.2 == m)
  {
    var after := UpdateMembership(t, organizationId, m, status).0;
    if status in {Revoked, Suspended} {
      if row :| row in t.teamMembers && row.0 == organizationId && row.2 == m {
        assert row !in after.teamMembers;
      } else {
        assert after.teamMembers == t.teamMembers;
      }
    }
  }

  /** Such a call exists: an administrator who sits in a team. */
  lemma FalseUpdateCanChangeState()
    ensures exists t: Tables :: UpdateMembership(t, "org", "m", Suspended).1 == Some(false) && UpdateMembership(t, "org", "m", Suspended).0 != t
  {
    var t := Tables({}, map["org" := "Org"], map["u" := User("a@b.c", ActiveUser)], {}, map["m" := Membership("u", "org", Active)],
                    {("m", OrganizationAdmin)}, {("org", "team", "m")}, map[], map[]);
    assert ("org", "team", "m") in t.teamMembers;
    FalseUpdateChangesTeamsOnly(t, "org", "m", Suspended);
    assert UpdateMembership(t, "org", "m", Suspended).1 == Some(false);
  }

  // ---- What the commands do ----

  /** The steps that a membership may make; a revoked one makes none. */
  const STEPS := {(Invited, Active), (Invited, Revoked), (Active, Suspended), (Active, Revoked), (Suspended, Active), (Suspended, Revoked)}

  predicate Step(before: Standing, after: Standing) {
    before == after || (before, after) in STEPS
  }

  /** The membership is in the organization and does not carry the administrator role. */
  predicate IsPlain(t: Tables, organizationId: Id, m: Id) {
    m in t.memberships && t.memberships[m].organizationId == organizationId && (m, OrganizationAdmin) !in t.roles
  }

  /** An update of a plain membership stores the status, or is refused if that is not a step; any other
      membership is left alone. Suspending and revoking remove its team rows, and nothing else changes. */
  lemma UpdateIs(t: Tables, organizationId: Id, m: Id, status: Standing)
    ensures var (after, reply) := UpdateMembership(t, organizationId, m, status);
            var plain := IsPlain(t, organizationId, m);
            if plain && !Step(t.memberships[m].status, status) then reply == None && after == t
            else
              && reply == Some(plain)
              && after.memberships == (if plain then t.memberships[m := Membership(t.memberships[m].userId, organizationId, status)] else t.memberships)
              && (forall row :: row in after.teamMembers <==>
                    row in t.teamMembers && !((status == Revoked || status == Suspended) && row.0 == organizationId && row.2 == m))
              && after == t.(memberships := after.memberships, teamMembers := after.teamMembers)
  {
  }

  /** Replacing roles is done for a plain active membership only, and gives it exactly the roles asked for. */
  lemma ReplacementIs(t: Tables, organizationId: Id, m: Id, roleKeys: seq<TenantRole>)
    ensures var (after, reply) := ReplaceMembershipRoles(t, organizationId, m, roleKeys);
            var done := IsPlain(t, organizationId, m) && t.memberships[m].status == Active;
            && reply == Some(done) && (!done ==> after == t)
            && (done ==> (forall role :: (m, role) in after.roles <==> role in roleKeys)
                         && (forall n, role :: n != m ==> ((n, role) in after.roles <==> (n, role) in t.roles))
                         && after == t.(roles := after.roles))
  {
  }

  // ---- The last administrator ----

  datatype AnyCommand =
    | Platform(command: Command)
    | Update(organizationId: Id, membershipId: Id, status: Standing)
    | Replace(organizationId: Id, membershipId: Id, roleKeys: seq<TenantRole>)

  ghost function Apply(t: Tables, step: AnyCommand): Tables {
    match step
    case Platform(c) => Transact(t, c).0
    case Update(organizationId, m, status) => UpdateMembership(t, organizationId, m, status).0
    case Replace(organizationId, m, roleKeys) => ReplaceMembershipRoles(t, organizationId, m, roleKeys).0
  }

  ghost predicate HasActiveAdmin(t: Tables, organizationId: Id) {
    exists m :: IsActiveAdmin(t, organizationId, m)
  }

  lemma UpdateKeepsAdmins(t: Tables, organizationId: Id, m: Id, status: Standing)
    requires Inv(t)
    ensures var after := UpdateMembership(t, organizationId, m, status).0;
            Inv(after) && forall o, n :: IsActiveAdmin(t, o, n) ==> IsActiveAdmin(after, o, n)
  {
    hide AllowedTransition, WithoutTeams;
  }

  lemma ReplaceKeepsInv(t: Tables, organizationId: Id, m: Id, roleKeys: seq<TenantRole>)
    requires Inv(t)
    ensures Inv(ReplaceMembershipRoles(t, organizationId, m, roleKeys).0)
  {
  }

  lemma ReplaceKeepsAdmins(t: Tables, organizationId: Id, m: Id, roleKeys: seq<TenantRole>)
    ensures var after := ReplaceMembershipRoles(t, organizationId, m, roleKeys).0;
            forall o, n :: IsActiveAdmin(t, o, n) ==> IsActiveAdmin(after, o, n)
  {
  }

  lemma TenantStepKeepsAdmins(t: Tables, step: AnyCommand, organizationId: Id, m: Id)
    requires Inv(t) && !step.Platform? && IsActiveAdmin(t, organizationId, m)
    ensures Inv(Apply(t, step)) && IsActiveAdmin(Apply(t, step), organizationId, m)
  {
    hide Inv, IsActiveAdmin, UpdateMembership, ReplaceMembershipRoles;
    match step
    case Update(o, n, status) => UpdateKeepsAdmins(t, o, n, status);
    case Replace(o, n, roleKeys) =>
      ReplaceKeepsInv(t, o, n, roleKeys);
      ReplaceKeepsAdmins(t, o, n, roleKeys);
  }

  lemma PlatformStepKeepsAdmins(t: Tables, c: Command, organizationId: Id)
    requires Inv(t) && HasActiveAdmin(t, organizationId)
    ensures HasActiveAdmin(Transact(t, c).0, organizationId)
  {
    hide Transact, Inv;
    var (after, outcome) := Transact(t, c);
    var m :| IsActiveAdmin(t, organizationId, m);
    if !IsFresh(outcome) {
      OnlyFreshSuccessWrites(t, c);
    } else if c.request.Provision? {
      ProvisionGrants(t, c);
      assert IsActiveAdmin(after, organizationId, m);
    } else if c.request.Revoke? {
      RevokeRemoves(t, c);
      if m != c.request.membershipId {
        assert IsActiveAdmin(after, organizationId, m);
      }
    } else {
      NamesOrganization(t, c);
      assert IsActiveAdmin(after, organizationId, m);
    }
  }

  ghost function ApplyAll(t: Tables, steps: seq<AnyCommand>): Tables
    decreases |steps|
  {
    if steps == [] then t else ApplyAll(Apply(t, steps[0]), steps[1..])
  }

  /** Over every serial run, an organization that has an active administrator keeps one. */
  lemma {:induction false} LastAdminIsProtected(t: Tables, steps: seq<AnyCommand>, organizationId: Id)
    requires Inv(t) && HasActiveAdmin(t, organizationId)
    ensures HasActiveAdmin(ApplyAll(t, steps), organizationId) && Inv(ApplyAll(t, steps))
    decreases |steps|
  {
    hide Transact;
    if steps != [] {
      var m :| IsActiveAdmin(t, organizationId, m);
      if steps[0].Platform? {
        TransactKeepsInv(t, steps[0].command);
        PlatformStepKeepsAdmins(t, steps[0].command, organizationId);
      } else {
        TenantStepKeepsAdmins(t, steps[0], organizationId, m);
      }
      LastAdminIsProtected(Apply(t, steps[0]), steps[1..], organizationId);
    }
  }

  // ---- Accepting an invitation is not protected ----

  /** The membership part of `acceptInvitation`, for a valid invitation to `role`. */
  ghost function AcceptInvitation(t: Tables, organizationId: Id, userId: Id, role: TenantRole, freshMembershipId: Id): Tables {
    var found := FindMembership(t, organizationId, userId);
    if found.Some? && t.memberships[found.value].status == Revoked then t
    else if found == None && freshMembershipId in t.memberships then t
    else
      var m := if found.Some? then found.value else freshMembershipId;
      t.(memberships := t.memberships[m := Membership(userId, organizationId, Active)],
         roles := WithoutRoles(t.roles, m) + {(m, role)})
  }

  lemma OthersStayAdmins(t: Tables, organizationId: Id, userId: Id, role: TenantRole, freshMembershipId: Id, m: Id)
    requires IsActiveAdmin(t, organizationId, m) && t.memberships[m].userId != userId
    ensures IsActiveAdmin(AcceptInvitation(t, organizationId, userId, role, freshMembershipId), organizationId, m)
  {
  }

  lemma AcceptingAdminIsReplaced(t: Tables, organizationId: Id, userId: Id, role: TenantRole, freshMembershipId: Id, m: Id)
    requires Inv(t) && IsActiveAdmin(t, organizationId, m) && t.memberships[m].userId == userId
    ensures var after := AcceptInvitation(t, organizationId, userId, role, freshMembershipId);
            && !IsActiveAdmin(after, organizationId, m)
            && forall n :: n != m && IsActiveAdmin(after, organizationId, n) ==> IsActiveAdmin(t, organizationId, n)
  {
    assert BelongsTo(t, m, organizationId, userId);
    assert FindMembership(t, organizationId, userId) == Some(m);
    hide Inv, FindMembership, BelongsTo;
  }

  lemma OneSeatPerUser(t: Tables, organizationId: Id, m: Id, n: Id)
    requires Inv(t) && IsActiveAdmin(t, organizationId, m) && IsActiveAdmin(t, organizationId, n)
    requires t.memberships[m].userId == t.memberships[n].userId
    ensures m == n
  {
  }

  /** It replaces the roles of an existing membership, so it keeps an active administrator exactly
      when some active administrator is someone else. */
  lemma AcceptInvitationKeepsAdminIff(t: Tables, organizationId: Id, userId: Id, role: TenantRole, freshMembershipId: Id)
    requires Inv(t) && HasActiveAdmin(t, organizationId)
    ensures HasActiveAdmin(AcceptInvitation(t, organizationId, userId, role, freshMembershipId), organizationId) <==>
            exists m :: IsActiveAdmin(t, organizationId, m) && t.memberships[m].userId != userId
  {
    var after := AcceptInvitation(t, organizationId, userId, role, freshMembershipId);
    hide AcceptInvitation, Inv;
    if m :| IsActiveAdmin(t, organizationId, m) && t.memberships[m].userId != userId {
      OthersStayAdmins(t, organizationId, userId, role, freshMembershipId, m);
    } else {
      var m :| IsActiveAdmin(t, organizationId, m);
      AcceptingAdminIsReplaced(t, organizationId, userId, role, freshMembershipId, m);
      if n :| IsActiveAdmin(after, organizationId, n) {
        OneSeatPerUser(t, organizationId, m, n);
      }
    }
  }

  /** It happens: an organization's only administrator accepts an invitation as a member. */
  lemma AcceptInvitationCanTakeLastAdmin()
    ensures exists t: Tables :: Inv(t) && HasActiveAdmin(t, "org") && !HasActiveAdmin(AcceptInvitation(t, "org", "u", Member, "n"), "org")
  {
    var t := Tables({}, map["org" := "Org"], map["u" := User("a@b.c", ActiveUser)], {}, map["m" := Membership("u", "org", Active)],
                    {("m", OrganizationAdmin)}, {}, map[], map[]);
    assert Inv(t);
    assert IsActiveAdmin(t, "org", "m");
    hide Inv, AcceptInvitation;
    AcceptInvitationKeepsAdminIff(t, "org", "u", Member, "n");
  }

  /** What accepting an invitation leaves: the user's membership, active, with the invited role only; a
      revoked one is not revived, and nobody else is touched. */
  lemma AcceptanceIs(t: Tables, organizationId: Id, userId: Id, role: TenantRole, freshMembershipId: Id)
    requires Inv(t) && freshMembershipId !in t.memberships
    ensures var after := AcceptInvitation(t, organizationId, userId, role, freshMembershipId);
            if exists m :: BelongsTo(t, m, organizationId, userId) && t.memberships[m].status == Revoked then after == t
            else exists m :: AcceptedAs(t, after, organizationId, userId, role, m)
                             && (if exists n :: BelongsTo(t, n, organizationId, userId) then BelongsTo(t, m, organizationId, userId) else m == freshMembershipId)
  {
    var after := AcceptInvitation(t, organizationId, userId, role, freshMembershipId);
    var found := FindMembership(t, organizationId, userId);
    var m := if found.Some? then found.value else freshMembershipId;
    if n :| BelongsTo(t, n, organizationId, userId) {
      assert found == Some(n);
    }
    assert after == t || AcceptedAs(t, after, organizationId, userId, role, m);
  }

  ghost predicate AcceptedAs(t: Tables, after: Tables, organizationId: Id, userId: Id, role: TenantRole, m: Id) {
    && after.memberships == t.memberships[m := Membership(userId, organizationId, Active)]
    && (forall r :: (m, r) in after.roles <==> r == role)
    && (forall n, r :: n != m ==> ((n, r) in after.roles <==> (n, r) in t.roles))
    && after == t.(memberships := after.memberships, roles := after.roles)
  }

  // ---- Memberships over runs ----

  /** The membership is still that of its user, and its status has made a step. */
  ghost predicate Moved(t: Tables, after: Tables, m: Id)
    requires m in t.memberships
  {
    && m in after.memberships && after.memberships[m].userId == t.memberships[m].userId
    && after.memberships[m].organizationId == t.memberships[m].organizationId
    && Step(t.memberships[m].status, after.memberships[m].status)
  }

  lemma PlatformMoves(t: Tables, c: Command, m: Id)
    requires Inv(t) && m in t.memberships
    ensures Moved(t, Transact(t, c).0, m)
  {
    hide Transact, Inv, IsAdmin;
    var (after, outcome) := Transact(t, c);
    if !IsFresh(outcome) {
      OnlyFreshSuccessWrites(t, c);
    } else if c.request.Provision? {
      ProvisionGrants(t, c);
    } else if c.request.Revoke? {
      RevokeRemoves(t, c);
      RevokedMoves(t, c);
    } else {
      NamesOrganization(t, c);
    }
  }

  lemma RevokedMoves(t: Tables, c: Command)
    requires c.request.Revoke? && IsFresh(Transact(t, c).1)
    ensures c.request.membershipId in t.memberships && Moved(t, Transact(t, c).0, c.request.membershipId)
  {
  }

  lemma CommandMoves(t: Tables, step: AnyCommand, m: Id)
    requires Inv(t) && m in t.memberships
    ensures Moved(t, Apply(t, step), m) && Inv(Apply(t, step))
  {
    hide Inv, Moved;
    match step
    case Platform(c) =>
      PlatformMoves(t, c, m);
      TransactKeepsInv(t, c);
    case Update(o, n, status) =>
      UpdateMoves(t, o, n, status, m);
      UpdateKeepsAdmins(t, o, n, status);
    case Replace(o, n, roleKeys) =>
      ReplaceMoves(t, o, n, roleKeys, m);
      ReplaceKeepsInv(t, o, n, roleKeys);
    hide Transact, UpdateMembership, ReplaceMembershipRoles;
  }

  lemma UpdateMoves(t: Tables, organizationId: Id, n: Id, status: Standing, m: Id)
    requires m in t.memberships
    ensures Moved(t, UpdateMembership(t, organizationId, n, status).0, m)
  {
    UpdateIs(t, organizationId, n, status);
    hide UpdateMembership;
  }

  lemma ReplaceMoves(t: Tables, organizationId: Id, n: Id, roleKeys: seq<TenantRole>, m: Id)
    requires m in t.memberships
    ensures Moved(t, ReplaceMembershipRoles(t, organizationId, n, roleKeys).0, m)
  {
    ReplacementIs(t, organizationId, n, roleKeys);
    hide ReplaceMembershipRoles;
  }

  /** Over every serial run of the six commands a membership keeps its user and organization, is never
      invited again, and once revoked stays revoked. */
  lemma {:induction false} RevokedIsFinal(t: Tables, steps: seq<AnyCommand>, m: Id)
    requires Inv(t) && m in t.memberships
    ensures var after := ApplyAll(t, steps);
            && m in after.memberships && after.memberships[m].userId == t.memberships[m].userId
            && after.memberships[m].organizationId == t.memberships[m].organizationId
            && (t.memberships[m].status == Revoked ==> after.memberships[m].status == Revoked)
            && (t.memberships[m].status != Invited ==> after.memberships[m].status != Invited)
    decreases |steps|
  {
    hide Apply, Inv;
    if steps != [] {
      CommandMoves(t, steps[0], m);
      RevokedIsFinal(Apply(t, steps[0]), steps[1..], m);
    }
  }
}
