/** Safety over whole runs: invite lifecycle, where memberships come from, and the free slot. */
module InviteSafety {
  import opened Prelude
  import opened Collation
  import opened Entitlement
  import opened InviteModel
  import opened InviteRuns
  import opened InviteSweep

  // ----- lifecycle -----

  /** A row stays as it is, or leaves `pending` once for a terminal status; nothing else on it changes. */
  predicate RowMovesOnce(i: Invite, i': Invite) {
    || i' == i
    || (i.status.Pending? && i' == i.(status := Revoked))
    || (i.status.Pending? && i' == i.(status := Expired))
    || (i.status.Pending? && i'.acceptedAt.Some? && i' == i.(status := Accepted, acceptedAt := i'.acceptedAt))
  }

  predicate RowsMoveOnce(a: Invites, b: Invites) {
    forall id | id in a :: id in b && RowMovesOnce(a[id], b[id])
  }

  lemma NothingMoves(invites: Invites)
    ensures RowsMoveOnce(invites, invites)
  {
  }

  lemma FlipMoves(s: Store, ws: WorkspaceId, now: Time)
    ensures RowsMoveOnce(s.invites, Flip(s, ws, now).invites) && Flip(s, ws, now).invites.Keys == s.invites.Keys
  {
  }

  lemma CreateMoves(s: Store, id: InviteId, c: CreateInput, limit: Option<nat>)
    ensures var after := CreateBatch(s, id, c, limit).0.invites;
            RowsMoveOnce(s.invites, after) && forall x | x in after && x !in s.invites :: after[x].status.Pending?
  {
    hide SeatGuard, PendingExists, FlipInvites, RowMovesOnce;
    NothingMoves(s.invites);
    FlipMoves(s, c.workspace, c.now);
  }

  lemma AcceptMoves(s: Store, a: AcceptInput)
    ensures var after := AcceptBatch(s, a).invites; RowsMoveOnce(s.invites, after) && after.Keys == s.invites.Keys
  {
    hide InsertSelects, RoleOf;
    FlipMoves(s, a.workspace, a.now);
  }

  lemma SweepMoves(invites: Invites, now: Time, cap: nat)
    ensures RowsMoveOnce(invites, ExpireIds(invites, SweepChoice(invites, now, cap)))
  {
    assert SweepChoice(invites, now, cap) <= LapsedIds(invites, now);
  }

  lemma RevokeMoves(s: Store, ws: WorkspaceId, id: InviteId)
    ensures RowsMoveOnce(s.invites, Revoke(s, ws, id).0.invites)
  {
  }

  lemma StepMovesRowsOnce(sys: Sys, step: Step, mode: DeploymentMode)
    ensures RowsMoveOnce(sys.store.invites, Apply(sys, step, mode).store.invites)
    ensures forall id | id in Apply(sys, step, mode).store.invites && id !in sys.store.invites ::
              step.CommitCreate? && Apply(sys, step, mode).store.invites[id].status.Pending?
  {
    hide RowMovesOnce, CreateBatch, AcceptBatch, ResolvePlan;
    NothingMoves(sys.store.invites);
    match step
    case CommitCreate(rid, id) =>
      if rid in sys.inflight && sys.inflight[rid].CreateRequest? {
        CreateMoves(sys.store, id, sys.inflight[rid].input, sys.inflight[rid].limit);
      }
    case CommitAccept(rid) =>
      if rid in sys.inflight && sys.inflight[rid].AcceptRequest? {
        AcceptMoves(sys.store, sys.inflight[rid].accept);
      }
    case FlipWorkspace(ws, now) => FlipMoves(sys.store, ws, now);
    case Sweep(now, cap) => SweepMoves(sys.store.invites, now, cap);
    case RevokeInvite(ws, id) => RevokeMoves(sys.store, ws, id);
    case _ =>
  }

  lemma {:induction false} RunMovesRowsOnce(sys: Sys, steps: seq<Step>, mode: DeploymentMode)
    ensures RowsMoveOnce(sys.store.invites, Run(sys, steps, mode).store.invites)
    decreases |steps|
  {
    if steps != [] {
      var next := Apply(sys, steps[0], mode);
      StepMovesRowsOnce(sys, steps[0], mode);
      RunMovesRowsOnce(next, steps[1..], mode);
    }
  }

  /** Over any run every row stays, and moves at most once, out of pending: its status changes, and with an acceptance
      its time; nothing else on it does. */
  lemma InviteLifecycle(sys: Sys, steps: seq<Step>, mode: DeploymentMode, id: InviteId)
    requires id in sys.store.invites
    ensures id in Run(sys, steps, mode).store.invites
    ensures var row, row' := sys.store.invites[id], Run(sys, steps, mode).store.invites[id];
            row' != row ==>
              && row.status.Pending? && !row'.status.Pending?
              && row' == row.(status := row'.status, acceptedAt := row'.acceptedAt)
              && (if row'.status.Accepted? then row'.acceptedAt.Some? else row'.acceptedAt == row.acceptedAt)
  {
    RunMovesRowsOnce(sys, steps, mode);
  }

  /** At most one pending row per workspace and login, ignoring case. */
  predicate OnePendingPerLogin(invites: Invites) {
    forall a, b | a in invites && b in invites && invites[a].status.Pending? && invites[b].status.Pending?
                  && invites[a].workspace == invites[b].workspace
                  && Fold(invites[a].login) == Fold(invites[b].login) :: a == b
  }

  lemma StepKeepsOnePending(sys: Sys, step: Step, mode: DeploymentMode)
    requires OnePendingPerLogin(sys.store.invites)
    ensures OnePendingPerLogin(Apply(sys, step, mode).store.invites)
  {
    StepMovesRowsOnce(sys, step, mode);
    var next := Apply(sys, step, mode);
    forall a, b | a in next.store.invites && b in next.store.invites && a != b
                  && next.store.invites[a].status.Pending? && next.store.invites[b].status.Pending?
      ensures next.store.invites[a].workspace != next.store.invites[b].workspace
              || Fold(next.store.invites[a].login) != Fold(next.store.invites[b].login)
    {
      assert a in sys.store.invites || b in sys.store.invites;
    }
  }

  lemma {:induction false} RunKeepsOnePending(sys: Sys, steps: seq<Step>, mode: DeploymentMode)
    requires OnePendingPerLogin(sys.store.invites)
    ensures OnePendingPerLogin(Run(sys, steps, mode).store.invites)
    decreases |steps|
  {
    if steps != [] {
      StepKeepsOnePending(sys, steps[0], mode);
      RunKeepsOnePending(Apply(sys, steps[0], mode), steps[1..], mode);
    }
  }

  // ----- where memberships come from -----

  /** Only an accept batch adds a member, one at a time, in its invite's role; it consumes that member's own invite,
    live
      before the batch and accepted after it. */
  lemma AddedMemberConsumesInvite(sys: Sys, step: Step, mode: DeploymentMode, key: (WorkspaceId, UserId))
    requires key in Apply(sys, step, mode).store.members && key !in sys.store.members
    ensures step.CommitAccept? && step.rid in sys.inflight && sys.inflight[step.rid].AcceptRequest?
    ensures var a, before, after := sys.inflight[step.rid].accept, sys.store, Apply(sys, step, mode).store;
            && a.inviteId in before.invites && a.inviteId in after.invites
            && Fold(a.login) in before.users && before.users[Fold(a.login)] == key.1
            && after.invites[a.inviteId].status.Accepted?
            && var row := before.invites[a.inviteId];
               && row.status.Pending? && row.expiresAt > a.now && row.workspace == key.0
               && after.members == before.members[key := if row.role.InviteAdmin? then Admin else Member]
  {
  }

  /** Every in-flight accept names a stored invite of its workspace, addressed to its login. */
  predicate AcceptsWellAddressed(sys: Sys) {
    forall rid | rid in sys.inflight && !sys.inflight[rid].CreateRequest? ::
      var a := sys.inflight[rid].accept;
      a.inviteId in sys.store.invites && sys.store.invites[a.inviteId].workspace == a.workspace
      && Fold(sys.store.invites[a.inviteId].login) == Fold(a.login)
  }

  predicate UsersKept(a: Store, b: Store) {
    forall login | login in a.users :: login in b.users && b.users[login] == a.users[login]
  }

  lemma StepKeepsUsers(sys: Sys, step: Step, mode: DeploymentMode)
    ensures UsersKept(sys.store, Apply(sys, step, mode).store)
  {
  }

  lemma StepKeepsAddressing(sys: Sys, step: Step, mode: DeploymentMode)
    requires AcceptsWellAddressed(sys)
    ensures AcceptsWellAddressed(Apply(sys, step, mode))
    ensures UsersKept(sys.store, Apply(sys, step, mode).store)
  {
    hide CreateBatch, AcceptBatch, Flip, Revoke, ResolvePlan;
    StepMovesRowsOnce(sys, step, mode);
    StepKeepsUsers(sys, step, mode);
  }

  lemma {:induction false} RunKeepsUsers(sys: Sys, steps: seq<Step>, mode: DeploymentMode)
    requires AcceptsWellAddressed(sys)
    ensures AcceptsWellAddressed(Run(sys, steps, mode)) && UsersKept(sys.store, Run(sys, steps, mode).store)
    decreases |steps|
  {
    if steps != [] {
      StepKeepsAddressing(sys, steps[0], mode);
      RunKeepsUsers(Apply(sys, steps[0], mode), steps[1..], mode);
    }
  }

  /**
   * Over any run a membership that was not there at the start has its own
   * invite: addressed to that user, in that workspace, pending (or not yet
   * created) at the start and accepted by the end. None comes from a revoked
   * or expired invite.
   */
  lemma {:induction false} MembershipComesFromInvite(
    sys: Sys, steps: seq<Step>, mode: DeploymentMode, key: (WorkspaceId, UserId)) returns (id: InviteId)
    requires AcceptsWellAddressed(sys)
    requires key !in sys.store.members && key in Run(sys, steps, mode).store.members
    ensures var before, after := sys.store, Run(sys, steps, mode).store;
            && id in after.invites && after.invites[id].status.Accepted? && after.invites[id].workspace == key.0
            && Fold(after.invites[id].login) in after.users && after.users[Fold(after.invites[id].login)] == key.1
            && (id in before.invites ==> before.invites[id].status.Pending?)
    decreases |steps|
  {
    var next := Apply(sys, steps[0], mode);
    StepKeepsAddressing(sys, steps[0], mode);
    StepMovesRowsOnce(sys, steps[0], mode);
    RunMovesRowsOnce(next, steps[1..], mode);
    RunKeepsUsers(next, steps[1..], mode);
    if key in next.store.members {
      AddedMemberConsumesInvite(sys, steps[0], mode, key);
      id := sys.inflight[steps[0].rid].accept.inviteId;
    } else {
      id := MembershipComesFromInvite(next, steps[1..], mode, key);
    }
  }

  // ----- one free workspace per login -----

  ghost predicate AtMostOneFree(s: Store) {
    forall user: UserId :: |FreeMemberships(s, user)| <= 1
  }

  /** Accept requests in flight were started under the `saas` rule. */
  predicate AcceptsOnSaas(sys: Sys) {
    forall rid | rid in sys.inflight && !sys.inflight[rid].CreateRequest? :: sys.inflight[rid].accept.mode.Saas?
  }

  /** Along the run no paid workspace drops to the free tier. */
  ghost predicate PaidStaysPaid(sys: Sys, steps: seq<Step>)
    decreases |steps|
  {
    steps == [] ||
    var next := Apply(sys, steps[0], Saas);
    (forall ws: WorkspaceId | IsPaid(sys.store.billing, ws) :: IsPaid(next.store.billing, ws))
    && PaidStaysPaid(next, steps[1..])
  }

  lemma AdmitKeepsOneFree(s: Store, a: AcceptInput, user: UserId)
    requires a.mode.Saas? && |FreeMemberships(s, user)| <= 1
    ensures |FreeMemberships(AdmitMember(s, a), user)| <= 1
  {
    var after := AdmitMember(s, a);
    if after != s {
      var key := (s.invites[a.inviteId].workspace, s.users[Fold(a.login)]);
      if key.1 == user && !IsPaid(s.billing, key.0) {
        assert FreeMemberships(s, user) == {};
        assert FreeMemberships(after, user) <= {key};
        SubsetSize(FreeMemberships(after, user), {key});
      } else {
        assert FreeMemberships(after, user) == FreeMemberships(s, user);
      }
    }
  }

  lemma StepKeepsOneFree(sys: Sys, step: Step)
    requires AtMostOneFree(sys.store) && AcceptsOnSaas(sys)
    requires forall ws: WorkspaceId | IsPaid(sys.store.billing, ws) :: IsPaid(Apply(sys, step, Saas).store.billing, ws)
    ensures AtMostOneFree(Apply(sys, step, Saas).store) && AcceptsOnSaas(Apply(sys, step, Saas))
  {
    var next := Apply(sys, step, Saas);
    forall user: UserId
      ensures |FreeMemberships(next.store, user)| <= 1
    {
      if step.CommitAccept? && next != sys {
        var a := sys.inflight[step.rid].accept;
        var flipped := Flip(sys.store, a.workspace, a.now);
        assert FreeMemberships(flipped, user) == FreeMemberships(sys.store, user);
        AdmitKeepsOneFree(flipped, a, user);
        assert FreeMemberships(next.store, user) == FreeMemberships(AdmitMember(flipped, a), user);
      } else {
        assert FreeMemberships(next.store, user) <= FreeMemberships(sys.store, user);
        SubsetSize(FreeMemberships(next.store, user), FreeMemberships(sys.store, user));
      }
    }
  }

  /** On `saas`, while no paid workspace becomes free, no interleaving gives a login a second live free membership. */
  lemma {:induction false} OneFreeMembershipPerLogin(sys: Sys, steps: seq<Step>)
    requires AtMostOneFree(sys.store) && AcceptsOnSaas(sys) && PaidStaysPaid(sys, steps)
    ensures AtMostOneFree(Run(sys, steps, Saas).store)
    decreases |steps|
  {
    if steps != [] {
      StepKeepsOneFree(sys, steps[0]);
      OneFreeMembershipPerLogin(Apply(sys, steps[0], Saas), steps[1..]);
    }
  }
}
