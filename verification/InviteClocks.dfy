/** What follows when no clock lies behind an earlier flip, and runs that show why the conditions are there. */
module InviteClocks {
  import opened Prelude
  import opened Collation
  import opened Entitlement
  import opened InviteModel
  import opened InviteSweep
  import opened InviteRuns
  import opened InviteOutcomes
  import opened InviteSafety
  import opened InviteExpiry
  import opened InviteAnswers
  import opened InviteRefinement

  /** The clock by which a read or a guarded write calls rows live. */
  function LookClock(sys: Sys, step: Step): Option<Time> {
    if step.ReadForAccept? then Some(step.now)
    else if step.CommitCreate? || step.CommitAccept? then StepClock(sys, step)
    else None
  }

  function Later(t: Time, clock: Option<Time>): Time { if clock.Some? && clock.value > t then clock.value else t }

  /** No read, create or accept looks by a clock behind an earlier flip's; `t` is the latest so far. */
  ghost predicate ClocksFollow(sys: Sys, steps: seq<Step>, mode: DeploymentMode, t: Time)
    decreases |steps|
  {
    steps == []
    || ((LookClock(sys, steps[0]).Some? ==> t <= LookClock(sys, steps[0]).value)
        && ClocksFollow(Apply(sys, steps[0], mode), steps[1..], mode, Later(t, StepClock(sys, steps[0]))))
  }

  ghost function LatestFlip(sys: Sys, steps: seq<Step>, mode: DeploymentMode, t: Time): Time
    decreases |steps|
  {
    if steps == [] then t
    else LatestFlip(Apply(sys, steps[0], mode), steps[1..], mode, Later(t, StepClock(sys, steps[0])))
  }

  /** Rows flipped so far have lapsed by `t`. */
  predicate FlipsLapsedBy(s: Store, m: Marks, t: Time) {
    forall id | id in s.invites && Flipped(s, m, id) :: s.invites[id].expiresAt <= t
  }

  lemma StaysLapsedBy(s: Store, m: Marks, after: Store, next: Marks, clock: Option<Time>, t: Time)
    requires FlipsLapsedBy(s, m, t) && ExpiresOnly(s.invites, after.invites, clock)
    requires m.closed <= next.closed && m.taken <= next.taken
    ensures FlipsLapsedBy(after, next, Later(t, clock))
  {
  }

  lemma NothingHidden(s: Store, m: Marks, t: Time, id: InviteId, now: Time)
    requires m.taken == {} && FlipsLapsedBy(s, m, t) && t <= now
    ensures !Missed(s, m, id, now)
  {
  }

  lemma NoHiddenIds(s: Store, m: Marks, t: Time, ws: WorkspaceId, now: Time)
    requires m.taken == {} && FlipsLapsedBy(s, m, t) && t <= now
    ensures HiddenIds(s, m, ws, now) == {}
  {
  }

  lemma FollowingStep(sys: Sys, step: Step, m: Marks, t: Time)
    requires m.taken == {} && FlipsLapsedBy(sys.store, m, t)
    requires LookClock(sys, step).Some? ==> t <= LookClock(sys, step).value
    ensures !Misled(sys, step, m) && NextMarks(sys, step, m).taken == {}
  {
    hide FlipsLapsedBy, Hidden, LiveDuplicate, RoleOf;
    match step
    case CommitCreate(rid, _) =>
      if rid in sys.inflight && sys.inflight[rid].CreateRequest? {
        NoHiddenIds(sys.store, m, t, sys.inflight[rid].input.workspace, sys.inflight[rid].input.now);
      }
    case ReadForAccept(_, id, _, now) => NothingHidden(sys.store, m, t, id, now);
    case CommitAccept(rid) =>
      if rid in sys.inflight && sys.inflight[rid].AcceptRequest? {
        NothingHidden(sys.store, m, t, sys.inflight[rid].accept.inviteId, sys.inflight[rid].accept.now);
      }
    case _ =>
  }

  lemma MarksGrow(sys: Sys, step: Step, m: Marks)
    ensures m.closed <= NextMarks(sys, step, m).closed && m.taken <= NextMarks(sys, step, m).taken
  {
    hide RoleOf, Hidden;
  }

  lemma {:induction false} FollowingRun(sys: Sys, steps: seq<Step>, mode: DeploymentMode, m: Marks, t: Time)
    requires m.taken == {} && FlipsLapsedBy(sys.store, m, t) && ClocksFollow(sys, steps, mode, t)
    ensures NoneMisled(sys, steps, mode, m)
    ensures var after := MarksAfter(sys, steps, mode, m);
            after.taken == {} && FlipsLapsedBy(Run(sys, steps, mode).store, after, LatestFlip(sys, steps, mode, t))
    decreases |steps|
  {
    hide Apply, FlipsLapsedBy, Misled, NextMarks, LookClock, StepClock, ExpiresOnly;
    if steps != [] {
      var next, marks := Apply(sys, steps[0], mode), NextMarks(sys, steps[0], m);
      FollowingStep(sys, steps[0], m, t);
      StepExpires(sys, steps[0], mode);
      MarksGrow(sys, steps[0], m);
      StaysLapsedBy(sys.store, m, next.store, marks, StepClock(sys, steps[0]), t);
      FollowingRun(next, steps[1..], mode, marks, Later(t, StepClock(sys, steps[0])));
    }
  }

  lemma NothingFlippedYet(s: Store, t: Time)
    ensures FlipsLapsedBy(s, Start(s), t)
  {
  }

  /** Then the run refines the one where expiry is only a predicate: every answer but a revoke's is alike. */
  lemma FlipsRefinePredicate(sys: Sys, steps: seq<Step>, mode: DeploymentMode, t: Time)
    requires AcceptsWellAddressed(sys) && ClocksFollow(sys, steps, mode, t)
    ensures OthersAlike(steps, Answers(sys, steps, mode), AnswersPure(sys, steps, mode))
  {
    NothingFlippedYet(sys.store, t);
    FollowingRun(sys, steps, mode, Start(sys.store), t);
    OtherAnswersAgreeExactly(sys, steps, mode);
  }

  /** And any read not behind the flips finds what it would find there. */
  lemma ReadsAfterRunAgree(sys: Sys, steps: seq<Step>, mode: DeploymentMode, t: Time, ws: WorkspaceId, read: Time)
    requires AcceptsWellAddressed(sys) && ClocksFollow(sys, steps, mode, t) && LatestFlip(sys, steps, mode, t) <= read
    ensures var lazy, never := Run(sys, steps, mode).store, RunPure(sys, steps, mode).store;
            && lazy.members == never.members
            && LiveIds(lazy.invites, ws, read) == LiveIds(never.invites, ws, read)
            && SeatsCounted(lazy, ws, read) == SeatsCounted(never, ws, read)
            && forall id | id in LiveIds(lazy.invites, ws, read) :: lazy.invites[id] == never.invites[id]
  {
    hide FlipsLapsedBy, HiddenIds, LiveIds, NoneMisled;
    var m := Start(sys.store);
    NothingFlippedYet(sys.store, t);
    FollowingRun(sys, steps, mode, m, t);
    NoHiddenIds(Run(sys, steps, mode).store, MarksAfter(sys, steps, mode, m), LatestFlip(sys, steps, mode, t), ws,
      read);
    ReadsAgreeExactly(sys, steps, mode, ws, read);
  }

  /** All answers, revokes included, are alike exactly when no revoke hits a row flipped before it. */
  lemma RevokeSeesTheFlip(sys: Sys, steps: seq<Step>, mode: DeploymentMode, t: Time)
    requires AcceptsWellAddressed(sys) && ClocksFollow(sys, steps, mode, t)
    ensures AllAlike(Answers(sys, steps, mode), AnswersPure(sys, steps, mode)) <==>
            NoneHitsFlipped(sys, steps, mode, Start(sys.store))
  {
    NothingFlippedYet(sys.store, t);
    FollowingRun(sys, steps, mode, Start(sys.store), t);
    AnswersAgreeExactly(sys, steps, mode);
  }

  // ----- what a caller of revoke can check beforehand -----

  /** The row is settled, or its deadline lies ahead of every flip so far. */
  predicate Unlapsed(i: Invite, t: Time) { i.status in {Accepted, Revoked} || i.expiresAt > t }

  ghost predicate RevokesInTime(sys: Sys, steps: seq<Step>, mode: DeploymentMode, t: Time)
    decreases |steps|
  {
    steps == []
    || ((Addresses(sys.store, steps[0]) ==> Unlapsed(sys.store.invites[steps[0].inviteId], t))
        && RevokesInTime(Apply(sys, steps[0], mode), steps[1..], mode, Later(t, StepClock(sys, steps[0]))))
  }

  lemma InTimeIsNoHit(sys: Sys, step: Step, m: Marks, t: Time)
    requires FlipsLapsedBy(sys.store, m, t)
    requires Addresses(sys.store, step) ==> Unlapsed(sys.store.invites[step.inviteId], t)
    ensures !HitsFlipped(sys, step, m)
  {
  }

  lemma {:induction false} InTimeHitsNothing(sys: Sys, steps: seq<Step>, mode: DeploymentMode, m: Marks, t: Time)
    requires FlipsLapsedBy(sys.store, m, t) && RevokesInTime(sys, steps, mode, t)
    ensures NoneHitsFlipped(sys, steps, mode, m)
    decreases |steps|
  {
    hide Apply, HitsFlipped, NextMarks, StepClock, ExpiresOnly;
    if steps != [] {
      var next, marks := Apply(sys, steps[0], mode), NextMarks(sys, steps[0], m);
      InTimeIsNoHit(sys, steps[0], m, t);
      StepExpires(sys, steps[0], mode);
      MarksGrow(sys, steps[0], m);
      StaysLapsedBy(sys.store, m, next.store, marks, StepClock(sys, steps[0]), t);
      InTimeHitsNothing(next, steps[1..], mode, marks, Later(t, StepClock(sys, steps[0])));
    }
  }

  /** When each revoke addresses a row whose deadline lies ahead of every flip before it, only misled steps can tell. */
  lemma RevokesInTimeAgree(sys: Sys, steps: seq<Step>, mode: DeploymentMode, t: Time)
    requires AcceptsWellAddressed(sys) && RevokesInTime(sys, steps, mode, t)
    ensures var alike := AllAlike(Answers(sys, steps, mode), AnswersPure(sys, steps, mode));
            && (alike <==> NoneMisled(sys, steps, mode, Start(sys.store)))
            && (ClocksFollow(sys, steps, mode, t) ==> alike)
  {
    InTimeHitsNothing(sys, steps, mode, Start(sys.store), t);
    AnswersAgreeExactly(sys, steps, mode);
    if ClocksFollow(sys, steps, mode, t) {
      RevokeSeesTheFlip(sys, steps, mode, t);
    }
  }

  // ----- runs that tell -----

  lemma TwoAnswers(sys: Sys, first: Step, second: Step, mode: DeploymentMode)
    ensures Answers(sys, [first, second], mode) ==
            [AnswerOf(sys, first, mode), AnswerOf(Apply(sys, first, mode), second, mode)]
    ensures AnswersPure(sys, [first, second], mode) ==
            [AnswerPure(sys, first, mode), AnswerPure(ApplyPure(sys, first, mode), second, mode)]
  {
    hide Apply, ApplyPure, AnswerOf, AnswerPure;
    var steps := [first, second];
    assert steps[1..] == [second] && [second][1..] == [];
    var next, pure := Apply(sys, first, mode), ApplyPure(sys, first, mode);
    assert Answers(next, [second], mode) == [AnswerOf(next, second, mode)];
    assert AnswersPure(pure, [second], mode) == [AnswerPure(pure, second, mode)];
  }

  lemma SweptRow(sys: Sys, id: InviteId, now: Time, cap: nat, mode: DeploymentMode)
    requires id in sys.store.invites && Lapsed(sys.store.invites[id], now) && cap >= |LapsedIds(sys.store.invites, now)|
    ensures var swept := Apply(sys, Sweep(now, cap), mode);
            && swept.inflight == sys.inflight && SameShared(swept.store, sys.store)
            && swept.store.invites.Keys == sys.store.invites.Keys
            && swept.store.invites[id] == sys.store.invites[id].(status := Expired)
            && forall o | o in sys.store.invites && !sys.store.invites[o].status.Pending? ::
                 swept.store.invites[o] == sys.store.invites[o]
    ensures ApplyPure(sys, Sweep(now, cap), mode) == sys
  {
    var swept := Apply(sys, Sweep(now, cap), mode);
    SweepLeaves(sys.store.invites, now, cap);
    assert LapsedIds(swept.store.invites, now) == {};
    assert id !in LapsedIds(swept.store.invites, now);
  }

  /** A sweep with room for the backlog, then a revoke of any row it flipped. */
  lemma SweepThenRevoke(sys: Sys, id: InviteId, now: Time, cap: nat, mode: DeploymentMode)
    requires id in sys.store.invites && Lapsed(sys.store.invites[id], now) && cap >= |LapsedIds(sys.store.invites, now)|
    ensures var steps := [Sweep(now, cap), RevokeInvite(sys.store.invites[id].workspace, id)];
            && Answers(sys, steps, mode) == [Silent, RevokeAnswer(false)]
            && AnswersPure(sys, steps, mode) == [Silent, RevokeAnswer(true)]
  {
    SweptRow(sys, id, now, cap, mode);
    TwoAnswers(sys, Sweep(now, cap), RevokeInvite(sys.store.invites[id].workspace, id), mode);
  }

  /** An accept in flight that found its row live, then a sweep by a later clock, then the accept's batch. */
  lemma SweepThenAccept(sys: Sys, rid: nat, now: Time, cap: nat, mode: DeploymentMode)
    requires rid in sys.inflight && sys.inflight[rid].AcceptRequest?
    requires var a := sys.inflight[rid].accept;
             && Addressed(sys.store, a) && Live(sys.store.invites[a.inviteId], a.now)
             && Lapsed(sys.store.invites[a.inviteId], now) && cap >= |LapsedIds(sys.store.invites, now)|
             && Fold(a.login) in sys.store.users && RoleOf(sys.store, a.workspace, a.login).None?
             && AcceptFreeGuard(sys.store, a.workspace, a.login, a.mode)
             && AcceptSeatGuard(sys.store, a.workspace, a.limit)
    ensures var a, steps := sys.inflight[rid].accept, [Sweep(now, cap), CommitAccept(rid)];
            var role := MemberRoleFor(sys.store.invites[a.inviteId].role);
            && Answers(sys, steps, mode) == [Silent, AcceptAnswered(Gone)]
            && AnswersPure(sys, steps, mode) == [Silent, AcceptAnswered(Admitted(a.workspace, role))]
  {
    hide Apply, ApplyPure, LapsedIds, CommitAnswer, CommitAnswerPure, AcceptFreeGuard, AcceptSeatGuard;
    var a := sys.inflight[rid].accept;
    var swept := Apply(sys, Sweep(now, cap), mode);
    SweptRow(sys, a.inviteId, now, cap, mode);
    TwoAnswers(sys, Sweep(now, cap), CommitAccept(rid), mode);
    SweptIsGone(swept.store, a);
    LiveIsAdmitted(sys.store, a);
  }

  lemma SweptIsGone(s: Store, a: AcceptInput)
    requires Addressed(s, a) && s.invites[a.inviteId].status.Expired? && RoleOf(s, a.workspace, a.login).None?
    ensures CommitAnswer(AcceptBatch(s, a), a) == Gone
  {
  }

  lemma LiveIsAdmitted(s: Store, a: AcceptInput)
    requires Addressed(s, a) && Live(s.invites[a.inviteId], a.now)
    requires Fold(a.login) in s.users && RoleOf(s, a.workspace, a.login).None?
    requires AcceptFreeGuard(s, a.workspace, a.login, a.mode) && AcceptSeatGuard(s, a.workspace, a.limit)
    ensures CommitAnswerPure(AcceptPure(s, a), a) == Admitted(a.workspace, MemberRoleFor(s.invites[a.inviteId].role))
  {
  }

  /** A create in flight dated before the deadline of the login's only pending row, which a sweep flips first. */
  lemma SweepThenCreate(sys: Sys, rid: nat, id: InviteId, now: Time, cap: nat, newId: InviteId, mode: DeploymentMode)
    requires rid in sys.inflight && sys.inflight[rid].CreateRequest? && sys.inflight[rid].limit.None?
    requires id in sys.store.invites && Lapsed(sys.store.invites[id], now) && cap >= |LapsedIds(sys.store.invites, now)|
    requires var c := sys.inflight[rid].input;
             && sys.store.invites[id].workspace == c.workspace && Fold(sys.store.invites[id].login) == Fold(c.login)
             && c.now < sys.store.invites[id].expiresAt && newId !in sys.store.invites
             && forall o | o in PendingIds(sys.store.invites, c.workspace) && o != id ::
                  Fold(sys.store.invites[o].login) != Fold(c.login)
    ensures var steps := [Sweep(now, cap), CommitCreate(rid, newId)];
            && Answers(sys, steps, mode) == [Silent, CreateAnswer(Created(newId))]
            && AnswersPure(sys, steps, mode) == [Silent, CreateAnswer(PendingExistsRefusal)]
  {
    var c := sys.inflight[rid].input;
    var swept := Apply(sys, Sweep(now, cap), mode);
    SweptRow(sys, id, now, cap, mode);
    StepMovesRowsOnce(sys, Sweep(now, cap), mode);
    TwoAnswers(sys, Sweep(now, cap), CommitCreate(rid, newId), mode);
    assert LiveDuplicate(sys.store, c.workspace, c.login, c.now);
    FlippedDuplicateIsLive(swept.store, c.workspace, c.login, c.now);
  }
}
