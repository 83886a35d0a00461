/** What a create and an accept decide and write, in the terms of the stored rows. */
module InviteTerms {
  import opened Prelude
  import opened Collation
  import opened Entitlement
  import opened InviteModel
  import opened InviteSweep
  import opened InviteRuns
  import opened InviteOutcomes
  import opened InviteSafety
  import opened InviteExpiry
  import opened InviteAnswers
  import opened InviteClocks

  // ----- plans -----

  /** The workspace has an active subscription to this plan. */
  predicate Subscribes(b: Billing, ws: WorkspaceId, plan: string) {
    ws in b.subscriptions && b.subscriptions[ws] == Subscription(plan, true)
  }

  /** A self-hosted workspace has no limits; else an active subscription to a known plan decides, and without one the
      `free` plan's row does. */
  lemma ResolvedPlan(b: Billing, ws: WorkspaceId, mode: DeploymentMode)
    ensures mode.SelfHosted? ==> ResolvePlan(b, ws, mode) == Some(PlanLimits("unlimited", "Unlimited", None))
    ensures forall plan | mode.Saas? && Subscribes(b, ws, plan) && plan in b.plans :: PlanIsRow(b, ws, mode, plan)
    ensures mode.Saas? && !(exists plan :: Subscribes(b, ws, plan) && plan in b.plans) ==>
              if "free" in b.plans then PlanIsRow(b, ws, mode, "free") else ResolvePlan(b, ws, mode).None?
  {
    if mode.Saas? && SubscribedPlan(b, ws).Some? {
      var plan := b.subscriptions[ws].planId;
      assert Subscribes(b, ws, plan) && plan in b.plans;
    }
  }

  /** The plan resolved is this one, with its row's name and seats. */
  predicate PlanIsRow(b: Billing, ws: WorkspaceId, mode: DeploymentMode, plan: string)
    requires plan in b.plans
  {
    var r := ResolvePlan(b, ws, mode);
    r.Some? && r.value.id == plan && r.value.name == b.plans[plan].name
    && r.value.includedMembers == b.plans[plan].includedMembers
  }

  ghost predicate PaysFor(b: Billing, ws: WorkspaceId) { exists plan :: Subscribes(b, ws, plan) && plan != "free" }

  lemma PaidMeans(b: Billing, ws: WorkspaceId)
    ensures IsPaid(b, ws) <==> PaysFor(b, ws)
  {
    if IsPaid(b, ws) {
      assert Subscribes(b, ws, b.subscriptions[ws].planId);
    }
  }

  // ----- guards -----

  /** A membership the login's user holds in a live workspace nobody pays for. */
  ghost predicate HoldsFree(s: Store, user: UserId, w: WorkspaceId) {
    (w, user) in s.members && w in s.live && !PaysFor(s.billing, w)
  }

  /** The accept's free-slot guard lets through: anything on a self-hosted deployment, a paid target, and a login that
      holds no free membership. */
  lemma FreeSlotMeans(s: Store, ws: WorkspaceId, login: string, mode: DeploymentMode)
    ensures AcceptFreeGuard(s, ws, login, mode) <==>
            || mode.SelfHosted? || PaysFor(s.billing, ws)
            || !(Fold(login) in s.users && exists w :: HoldsFree(s, s.users[Fold(login)], w))
  {
    PaidMeans(s.billing, ws);
    if Fold(login) in s.users {
      var user := s.users[Fold(login)];
      forall w
        ensures (w, user) in FreeMemberships(s, user) <==> HoldsFree(s, user, w)
      {
        PaidMeans(s.billing, w);
      }
      if w :| HoldsFree(s, user, w) {
        assert (w, user) in FreeMemberships(s, user);
      } else {
        assert FreeMemberships(s, user) == {};
      }
    }
  }

  /** One free membership at most: no login holds two different ones. */
  lemma OneFreeMeans(s: Store)
    ensures AtMostOneFree(s) <==> forall user, v, w | HoldsFree(s, user, v) && HoldsFree(s, user, w) :: v == w
  {
    hide PaysFor, IsPaid;
    forall user: UserId, w: WorkspaceId
      ensures (w, user) in FreeMemberships(s, user) <==> HoldsFree(s, user, w)
    {
      PaidMeans(s.billing, w);
    }
    forall user: UserId
      ensures |FreeMemberships(s, user)| <= 1 <==>
              forall v, w | HoldsFree(s, user, v) && HoldsFree(s, user, w) :: v == w
    {
      AtMostOne(FreeMemberships(s, user));
    }
  }

  lemma AtMostOne(keys: set<(WorkspaceId, UserId)>)
    ensures |keys| <= 1 <==> forall k, l | k in keys && l in keys :: k == l
  {
    if k :| k in keys {
      if keys - {k} == {} {
        assert keys == {k};
      } else {
        var l :| l in keys - {k};
        assert {k, l} <= keys;
        SubsetSize({k, l}, keys);
      }
    }
  }

  /** The create's seat guard: members and unexpired pending invites of the workspace, below the limit if there is
      one. */
  lemma SeatsMean(s: Store, ws: WorkspaceId, now: Time, limit: Option<nat>)
    ensures var members := set k | k in s.members.Keys && k.0 == ws :: k.1;
            var waiting := set id | id in s.invites && s.invites[id].workspace == ws && s.invites[id].status.Pending?
                                    && s.invites[id].expiresAt > now;
            && (SeatGuard(s, ws, now, limit) <==> limit.None? || |members| + |waiting| < limit.value)
            && (AcceptSeatGuard(s, ws, limit) <==> limit.None? || |members| < limit.value)
  {
    var members := set k | k in s.members.Keys && k.0 == ws :: k.1;
    OneUserOneKey(MemberKeys(s.members, ws), members, ws);
    assert LiveIds(s.invites, ws, now) == set id | id in s.invites && s.invites[id].workspace == ws
      && s.invites[id].status.Pending? && s.invites[id].expiresAt > now;
  }

  lemma {:induction false} OneUserOneKey(keys: set<(WorkspaceId, UserId)>, users: set<UserId>, ws: WorkspaceId)
    requires forall k | k in keys :: k.0 == ws && k.1 in users
    requires forall u | u in users :: (ws, u) in keys
    ensures |keys| == |users|
  {
    if u :| u in users {
      OneUserOneKey(keys - {(ws, u)}, users - {u}, ws);
    } else {
      assert keys == {};
    }
  }

  // ----- effects -----

  /** Without a plan to read a limit from, a create fails and writes nothing; with one it is its batch. */
  lemma CreateNeedsPlan(s: Store, id: InviteId, c: CreateInput, mode: DeploymentMode)
    ensures var plan := ResolvePlan(s.billing, c.workspace, mode);
            && (Create(s, id, c, mode).1.NoPlan? <==> plan.None?)
            && (plan.None? ==> Create(s, id, c, mode).0 == s)
            && (plan.Some? ==> Create(s, id, c, mode) == CreateBatch(s, id, c, plan.value.includedMembers))
  {
    hide SeatGuard, PendingExists, Flip;
  }

  /** What an accept's first read settles: an unknown or foreign invite, a dead one, one accepted before, a lapsed one
      and one without a plan. */
  lemma AcceptSettledByRead(s: Store, id: InviteId, login: string, now: Time, mode: DeploymentMode)
    ensures id !in s.invites || Fold(s.invites[id].login) != Fold(login) ==>
              Accept(s, id, login, now, mode) == (s, NotFound)
    ensures id in s.invites && Fold(s.invites[id].login) == Fold(login) ==>
              var row, answer := s.invites[id], Accept(s, id, login, now, mode);
              && (row.status.Revoked? || row.status.Expired? ==> answer == (s, Gone))
              && (row.status.Accepted? && RoleOf(s, row.workspace, login).None? ==> answer == (s, NotFound))
              && (forall role | row.status.Accepted? && RoleOf(s, row.workspace, login) == Some(role) ::
                    answer == (s, Admitted(row.workspace, role)))
              && (row.status.Pending? && row.expiresAt <= now ==> answer == (Flip(s, row.workspace, now), ExpiredNow))
              && (row.status.Pending? && row.expiresAt > now && ResolvePlan(s.billing, row.workspace, mode).None? ==>
                    answer == (s, NoPlanForAccept))
  {
    hide AcceptBatch, Flip, ResolvePlan;
  }

  /** The row a create inserts, and nothing else beside the flip. */
  lemma CreatedRow(s: Store, id: InviteId, c: CreateInput, limit: Option<nat>)
    requires CreateBatch(s, id, c, limit).1.Created?
    ensures var after := CreateBatch(s, id, c, limit).0;
            && CreateBatch(s, id, c, limit).1.id == id
            && after.invites.Keys == s.invites.Keys + {id} && id !in s.invites
            && var row := after.invites[id];
               && row.workspace == c.workspace && row.login == c.login && row.role == c.role
               && row.status.Pending? && row.invitedBy == c.invitedBy && row.createdAt == c.now
               && row.expiresAt == c.expiresAt && row.acceptedAt.None?
    ensures CreateBatch(s, id, c, limit).0.(invites := s.invites) == s
  {
  }

  /** A flip expires the workspace's lapsed pending rows, and changes nothing else. */
  lemma FlipMeans(s: Store, ws: WorkspaceId, now: Time)
    ensures var after := Flip(s, ws, now);
            && after.(invites := s.invites) == s && after.invites.Keys == s.invites.Keys
            && forall id | id in s.invites ::
                 var row := s.invites[id];
                 after.invites[id] ==
                   if row.workspace == ws && row.status.Pending?
                     && row.expiresAt <= now then row.(status := Expired) else row
  {
  }

  /** A login that held no membership is admitted with its invite's own role: the answer and the stored row say so,
      and no accept makes an owner. */
  lemma AdmittedRole(s: Store, id: InviteId, login: string, now: Time, mode: DeploymentMode)
    requires id in s.invites && Fold(login) in s.users
    requires (s.invites[id].workspace, s.users[Fold(login)]) !in s.members
    requires Accept(s, id, login, now, mode).1.Admitted?
    ensures var (after, answer) := Accept(s, id, login, now, mode);
            var key := (s.invites[id].workspace, s.users[Fold(login)]);
            && answer.workspace == s.invites[id].workspace && after.members == s.members[key := answer.role]
            && (answer.role.Admin? <==> s.invites[id].role.InviteAdmin?)
            && (answer.role.Member? <==> s.invites[id].role.InviteMember?)
            && !answer.role.Owner?
  {
  }

  /** The same for the batch alone, in whatever state it finds the store. */
  lemma BatchRole(s: Store, a: AcceptInput)
    requires a.inviteId in s.invites && Fold(a.login) in s.users
    requires (s.invites[a.inviteId].workspace, s.users[Fold(a.login)]) !in s.members
    ensures var after := AcceptBatch(s, a);
            var key := (s.invites[a.inviteId].workspace, s.users[Fold(a.login)]);
            && (key !in after.members ==> after.members == s.members)
            && (key in after.members ==>
                  && after.members == s.members[key := after.members[key]]
                  && (after.members[key].Admin? <==> s.invites[a.inviteId].role.InviteAdmin?)
                  && (after.members[key].Member? <==> s.invites[a.inviteId].role.InviteMember?)
                  && !after.members[key].Owner?)
  {
  }

  /** A revoke ends the pending row of its workspace, at any age, and touches nothing else. */
  lemma RevokedRow(s: Store, ws: WorkspaceId, id: InviteId)
    ensures var (after, done) := Revoke(s, ws, id);
            && (done <==> id in s.invites && s.invites[id].workspace == ws && s.invites[id].status.Pending?)
            && after.(invites := s.invites) == s && after.invites.Keys == s.invites.Keys
            && (forall other | other in s.invites && !(done && other == id) :: after.invites[other] == s.invites[other])
            && (done ==> after.invites[id] == s.invites[id].(status := Revoked))
  {
  }

  // ----- what the steps around the requests do -----

  /** A removal takes one membership away, a new subscription replaces the workspace's, and a deletion ends its
      workspace. */
  lemma StepsAround(sys: Sys, ws: WorkspaceId, user: UserId, sub: Subscription, mode: DeploymentMode)
    ensures var s := sys.store;
            && Apply(sys, RemoveMember(ws, user), mode) == sys.(store := s.(members := s.members - {(ws, user)}))
            && Apply(sys, DeleteWorkspace(ws), mode) == sys.(store := s.(live := s.live - {ws}))
            && Apply(sys, SetSubscription(ws, sub), mode).store.billing.plans == s.billing.plans
            && Apply(sys, SetSubscription(ws, sub), mode).store.billing.subscriptions ==
              s.billing.subscriptions[ws := sub]
            && Apply(sys, SetSubscription(ws, sub), mode).store.(billing := s.billing) == s
  {
  }

  /** A sign-up gives a login that has no user a new one, and is refused for any other. */
  lemma SignedUp(sys: Sys, login: string, user: UserId, mode: DeploymentMode)
    ensures var s := sys.store;
            var taken := Fold(login) in s.users || (exists l :: l in s.users && s.users[l] == user)
                         || exists w :: (w, user) in s.members;
            Apply(sys, SignUp(login, user), mode) ==
              if taken then sys else sys.(store := s.(users := s.users[Fold(login) := user]))
  {
    var s := sys.store;
    if k :| k in s.members && k.1 == user {
      assert (k.0, user) in s.members;
    }
  }

  // ----- the steps of a run are the parts of a request -----

  /** A create that nothing interrupts is its read followed by its batch. */
  lemma UninterruptedCreate(sys: Sys, rid: nat, id: InviteId, c: CreateInput, mode: DeploymentMode)
    requires rid !in sys.inflight
    ensures Run(sys, [ReadForCreate(rid, c), CommitCreate(rid, id)], mode).store == Create(sys.store, id, c, mode).0
    ensures var answer := Create(sys.store, id, c, mode).1;
            Answers(sys, [ReadForCreate(rid, c), CommitCreate(rid, id)], mode) ==
              if answer.NoPlan? then [CreateAnswer(NoPlan), Silent] else [Proceeds, CreateAnswer(answer)]
  {
    hide CreateBatch, ResolvePlan;
    var steps := [ReadForCreate(rid, c), CommitCreate(rid, id)];
    var read := Apply(sys, steps[0], mode);
    TwoSteps(sys, steps, mode);
    TwoAnswers(sys, steps, mode);
    CreateNeedsPlan(sys.store, id, c, mode);
    assert read.store == sys.store;
  }

  lemma TwoAnswers(sys: Sys, steps: seq<Step>, mode: DeploymentMode)
    requires |steps| == 2
    ensures Answers(sys, steps, mode) ==
            [AnswerOf(sys, steps[0], mode), AnswerOf(Apply(sys, steps[0], mode), steps[1], mode)]
  {
    hide Apply, AnswerOf;
    var next := Apply(sys, steps[0], mode);
    assert steps[1..] == [steps[1]] && steps[1..][1..] == [];
    assert Answers(next, steps[1..], mode) == [AnswerOf(next, steps[1], mode)];
  }

  lemma TwoSteps(sys: Sys, steps: seq<Step>, mode: DeploymentMode)
    requires |steps| == 2
    ensures Run(sys, steps, mode) == Apply(Apply(sys, steps[0], mode), steps[1], mode)
  {
    hide Apply;
    assert steps[1..][1..] == [] && steps[1..][0] == steps[1];
    var next := Apply(sys, steps[0], mode);
    assert Run(next, steps[1..], mode) == Run(Apply(next, steps[1], mode), [], mode);
  }

  lemma BatchAnswers(s: Store, a: AcceptInput)
    requires a.inviteId in s.invites
    ensures var after := AcceptBatch(s, a);
            a.inviteId in after.invites && CommitAnswer(after, a) == AcceptAnswer(after, a, Classify(after, a))
            && !CommitAnswer(after, a).NotFound? && !CommitAnswer(after, a).NoPlanForAccept?
  {
    hide InsertSelects, RoleOf;
  }

  /** An accept of a live invite that nothing interrupts is its two reads followed by its batch. */
  lemma UninterruptedAccept(sys: Sys, rid: nat, id: InviteId, login: string, now: Time, mode: DeploymentMode)
    requires rid !in sys.inflight && id in sys.store.invites && Live(sys.store.invites[id], now)
    ensures Run(sys, [ReadForAccept(rid, id, login, now), PlanForAccept(rid), CommitAccept(rid)], mode).store ==
            Accept(sys.store, id, login, now, mode).0
    ensures var answer := Accept(sys.store, id, login, now, mode).1;
            Answers(sys, [ReadForAccept(rid, id, login, now), PlanForAccept(rid), CommitAccept(rid)], mode) ==
              if answer.NotFound? then [AcceptAnswered(NotFound), Silent, Silent]
              else if answer.NoPlanForAccept? then [Proceeds, AcceptAnswered(NoPlanForAccept), Silent]
              else [Proceeds, Proceeds, AcceptAnswered(answer)]
  {
    hide AcceptBatch, ResolvePlan, Classify, AcceptAnswer;
    var steps := [ReadForAccept(rid, id, login, now), PlanForAccept(rid), CommitAccept(rid)];
    var seen := Apply(sys, steps[0], mode);
    assert seen.store == sys.store;
    assert steps[1..] == [PlanForAccept(rid), CommitAccept(rid)];
    TwoSteps(seen, steps[1..], mode);
    TwoAnswers(seen, steps[1..], mode);
    forall limit: Option<nat>
      ensures var a := AcceptInput(id, sys.store.invites[id].workspace, login, now, mode, limit);
              var after := AcceptBatch(sys.store, a);
              id in after.invites && CommitAnswer(after, a) == AcceptAnswer(after, a, Classify(after, a))
              && !CommitAnswer(after, a).NotFound? && !CommitAnswer(after, a).NoPlanForAccept?
    {
      BatchAnswers(sys.store, AcceptInput(id, sys.store.invites[id].workspace, login, now, mode, limit));
    }
    var planned := Apply(seen, steps[1], mode);
    assert planned.store == sys.store;
  }

  /** A revoke answers whether it changed a row, and the steps of nobody's request answer nothing. */
  lemma OtherAnswers(sys: Sys, step: Step, mode: DeploymentMode)
    ensures step.RevokeInvite? ==>
            AnswerOf(sys, step, mode) == RevokeAnswer(Revoke(sys.store, step.ws, step.inviteId).1)
    ensures (step.FlipWorkspace? || step.Sweep?) ==> AnswerOf(sys, step, mode) == Silent
    ensures (step.RemoveMember? || step.SetSubscription? || step.SignUp? || step.DeleteWorkspace?) ==>
              AnswerOf(sys, step, mode) == Silent
  {
  }

  // ----- what undoing a flip and keeping to the clocks means -----

  /** Undoing the flips of a store without expired rows gives back its rows, whichever flip or sweep it was. */
  lemma UnflipUndoes(invites: Invites, ws: WorkspaceId, now: Time, cap: nat)
    requires forall id | id in invites :: !invites[id].status.Expired?
    ensures Unflip(FlipInvites(invites, ws, now)) == invites
    ensures Unflip(SweepOnce(invites, now, cap)) == invites
  {
    var chosen := SweepChoice(invites, now, cap);
    assert chosen <= LapsedIds(invites, now);
  }

  /** A read or a guarded write at the very clock of the flip before it is not behind it. */
  lemma SameClockFollows(sys: Sys, ws: WorkspaceId, rid: nat, id: InviteId, login: string, now: Time,
      mode: DeploymentMode)
    ensures var steps := [FlipWorkspace(ws, now), ReadForAccept(rid, id, login, now)];
            ClocksFollow(sys, steps, mode, now) && FlipsBy(sys, steps, mode, now)
  {
    hide Apply;
    var steps := [FlipWorkspace(ws, now), ReadForAccept(rid, id, login, now)];
    assert steps[1..][0] == steps[1] && steps[1..][1..] == [];
    var next := Apply(sys, steps[0], mode);
    assert ClocksFollow(next, steps[1..], mode, now) && FlipsBy(next, steps[1..], mode, now);
  }

  /** A row no flip can reach by then: settled, or with its deadline ahead. */
  lemma UnlapsedMeans(i: Invite, t: Time)
    ensures Unlapsed(i, t) <==> i.status.Accepted? || i.status.Revoked? || t < i.expiresAt
  {
  }
}
