/**
 * The invitation store in its own form: rows updated in place, each batch one
 * atomic method proved against its effect on the store's value.
 */
module InviteDatabase {
  import opened Prelude
  import opened Collation
  import opened Entitlement
  import opened InviteModel
  import opened InviteSweep

  class Database {
    var invites: Invites
    var members: Members
    const users: map<string, UserId>
    const live: set<WorkspaceId>
    const billing: Billing

    constructor (s: Store)
      ensures State() == s
    {
      invites, members, users, live, billing := s.invites, s.members, s.users, s.live, s.billing;
    }

    function State(): Store
      reads this
    {
      Store(invites, members, users, live, billing)
    }

    /** The workspace's seat limit, read before the batch it is bound into. */
    method ReadPlan(ws: WorkspaceId, mode: DeploymentMode) returns (plan: Option<PlanLimits>)
      ensures plan == ResolvePlan(billing, ws, mode)
    {
      var plans := ResolveWorkspacePlans(billing, [ws], mode);
      assert ws in [ws];
      plan := if plans.None? then None else Some(plans.value[ws]);
    }

    method FlipLapsed(ws: WorkspaceId, now: Time)
      modifies this`invites
      ensures State() == Flip(old(State()), ws, now)
    {
      invites := map id | id in invites :: FlipRow(invites[id], ws, now);
    }

    /** Two statements, rolled back together when the insert trips the unique index. */
    method CommitCreate(id: InviteId, c: CreateInput, limit: Option<nat>) returns (outcome: CreateOutcome)
      modifies this`invites
      ensures (State(), outcome) == CreateBatch(old(State()), id, c, limit)
    {
      var before := invites;
      FlipLapsed(c.workspace, c.now);
      if !SeatGuard(State(), c.workspace, c.now, limit) {
        return SeatCapRefusal(limit.value);
      }
      var taken := set k | k in invites && invites[k].workspace == c.workspace && invites[k].status.Pending?
                           && Fold(invites[k].login) == Fold(c.login);
      assert taken != {} <==> PendingExists(invites, c.workspace, c.login) by {
        if PendingExists(invites, c.workspace, c.login) {
          var k :| k in invites && invites[k].workspace == c.workspace && invites[k].status.Pending?
                   && Fold(invites[k].login) == Fold(c.login);
          assert k in taken;
        }
      }
      if id in invites || taken != {} {
        invites := before;
        return PendingExistsRefusal;
      }
      invites := invites[id := NewInvite(c)];
      outcome := Created(id);
    }

    method CreateInvite(id: InviteId, c: CreateInput, mode: DeploymentMode) returns (outcome: CreateOutcome)
      modifies this`invites
      ensures (State(), outcome) == Create(old(State()), id, c, mode)
    {
      var plan := ReadPlan(c.workspace, mode);
      if plan.None? {
        return NoPlan;
      }
      outcome := CommitCreate(id, c, plan.value.includedMembers);
    }

    /** Flip, guarded membership insert, consume, classify: one transaction. */
    method CommitAccept(a: AcceptInput) returns (blocker: Blocker)
      requires a.inviteId in invites
      modifies this`invites, this`members
      ensures State() == AcceptBatch(old(State()), a)
      ensures a.inviteId in invites && blocker == Classify(State(), a)
    {
      FlipLapsed(a.workspace, a.now);
      var i := invites[a.inviteId];
      if InsertSelects(State(), a) {
        var key := (i.workspace, users[Fold(a.login)]);
        if key !in members {
          members := members[key := MemberRoleFor(i.role)];
        }
      }
      if Live(i, a.now) && RoleOf(State(), i.workspace, a.login).Some? {
        invites := invites[a.inviteId := i.(status := Accepted, acceptedAt := Some(a.now))];
      }
      blocker := Classify(State(), a);
    }

    method AcceptInvite(inviteId: InviteId, login: string, now: Time, mode: DeploymentMode)
      returns (outcome: AcceptOutcome)
      modifies this`invites, this`members
      ensures (State(), outcome) == Accept(old(State()), inviteId, login, now, mode)
    {
      if inviteId !in invites || Fold(invites[inviteId].login) != Fold(login) {
        return NotFound;
      }
      var i := invites[inviteId];
      if i.status == Revoked || i.status == Expired {
        return Gone;
      }
      var role := RoleOf(State(), i.workspace, login);
      if i.status == Accepted {
        return if role.None? then NotFound else Admitted(i.workspace, role.value);
      }
      if i.expiresAt <= now {
        FlipLapsed(i.workspace, now);
        return ExpiredNow;
      }
      var plan := ReadPlan(i.workspace, mode);
      if plan.None? {
        return NoPlanForAccept;
      }
      var a := AcceptInput(inviteId, i.workspace, login, now, mode, plan.value.includedMembers);
      var blocker := CommitAccept(a);
      var admitted := RoleOf(State(), i.workspace, login);
      if admitted.Some? {
        return Admitted(i.workspace, admitted.value);
      }
      if invites[inviteId].status == Revoked || invites[inviteId].status == Expired {
        return Gone;
      }
      outcome := if a.limit.Some? && blocker == SeatCapBlocks then MemberCap(a.limit.value) else FreeSlotRefusal;
    }

    method RevokeInvite(ws: WorkspaceId, inviteId: InviteId) returns (changed: bool)
      modifies this`invites
      ensures (State(), changed) == Revoke(old(State()), ws, inviteId)
    {
      changed := inviteId in invites && invites[inviteId].workspace == ws && invites[inviteId].status == Pending;
      if changed {
        invites := invites[inviteId := invites[inviteId].(status := Revoked)];
      }
    }

    /** The first row of `ids` in sweep order. */
    method LeastRow(ids: set<InviteId>) returns (least: InviteId)
      requires ids != {} && ids <= invites.Keys
      ensures least in ids && forall o | o in ids && o != least :: Before(invites, least, o)
    {
      least :| least in ids;
      var rest := ids - {least};
      while rest != {}
        invariant least in ids && rest <= ids - {least}
        invariant forall o | o in ids - rest && o != least :: Before(invites, least, o)
        decreases rest
      {
        var o :| o in rest;
        rest := rest - {o};
        var previous := least;
        if Before(invites, o, least) {
          least := o;
        }
        forall p | p in ids - rest && p != least
          ensures Before(invites, least, p)
        {
          assert p == o || p == previous || Before(invites, previous, p);
        }
      }
    }

    /** `ORDER BY expires_at, id LIMIT cap`, then one update; the answer counts the rows flipped. */
    method ExpireLapsedInvites(now: Time, cap: nat) returns (changes: nat)
      modifies this`invites
      ensures State() == old(State()).(invites := SweepOnce(old(invites), now, cap))
      ensures changes == Min(cap, |LapsedIds(old(invites), now)|)
    {
      var lapsed := set id | id in invites && Lapsed(invites[id], now);
      ghost var all := lapsed;
      var chosen: set<InviteId> := {};
      while |chosen| < cap && lapsed != {}
        invariant invites == old(invites) && all <= invites.Keys
        invariant chosen + lapsed == all && chosen !! lapsed && |chosen| <= cap
        invariant forall a, b | a in chosen && b in lapsed :: Before(invites, a, b)
        decreases lapsed
      {
        var next := LeastRow(lapsed);
        chosen, lapsed := chosen + {next}, lapsed - {next};
      }
      LeastAreTheChoice(invites, now, cap, chosen, lapsed);
      changes := |chosen|;
      invites := map id | id in invites :: if id in chosen then invites[id].(status := Expired) else invites[id];
    }
  }
}
