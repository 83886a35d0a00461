/** Lazy expiry: which rows a flip has reached is invisible to every live read. */
module InviteExpiry {
  import opened Prelude
  import opened Entitlement
  import opened InviteModel
  import opened InviteSweep
  import opened InviteRuns

  // ----- any run, clocks in any order -----

  function UnflipRow(i: Invite): Invite { if i.status.Expired? then i.(status := Pending) else i }

  /** The same rows with every flip undone. */
  function Unflip(invites: Invites): Invites { map id | id in invites :: UnflipRow(invites[id]) }

  predicate ExpiredBy(invites: Invites, t: Time) {
    forall id | id in invites && invites[id].status.Expired? :: invites[id].expiresAt <= t
  }

  /** The clock the step's flip uses; None when the step flips nothing. */
  function StepClock(sys: Sys, step: Step): Option<Time> {
    match step
    case CommitCreate(rid, _) =>
      if rid in sys.inflight && sys.inflight[rid].CreateRequest? then Some(sys.inflight[rid].input.now) else None
    case CommitAccept(rid) =>
      if rid in sys.inflight && sys.inflight[rid].AcceptRequest? then Some(sys.inflight[rid].accept.now) else None
    case FlipWorkspace(_, now) => Some(now)
    case Sweep(now, _) => Some(now)
    case _ => None
  }

  ghost predicate FlipsBy(sys: Sys, steps: seq<Step>, mode: DeploymentMode, t: Time)
    decreases |steps|
  {
    steps == [] ||
    ((StepClock(sys, steps[0]).Some? ==> StepClock(sys, steps[0]).value <= t)
     && FlipsBy(Apply(sys, steps[0], mode), steps[1..], mode, t))
  }

  /** Every row expired afterwards was so before, unchanged, or has lapsed by the clock. */
  predicate ExpiresOnly(before: Invites, after: Invites, clock: Option<Time>) {
    forall id | id in after && after[id].status.Expired? ::
      (id in before && before[id] == after[id]) || (clock.Some? && after[id].expiresAt <= clock.value)
  }

  lemma FlipExpires(s: Store, ws: WorkspaceId, now: Time)
    ensures ExpiresOnly(s.invites, Flip(s, ws, now).invites, Some(now))
  {
  }

  lemma CreateExpires(s: Store, id: InviteId, c: CreateInput, limit: Option<nat>)
    ensures ExpiresOnly(s.invites, CreateBatch(s, id, c, limit).0.invites, Some(c.now))
  {
    hide SeatGuard, PendingExists, FlipInvites;
    FlipExpires(s, c.workspace, c.now);
  }

  lemma AcceptExpires(s: Store, a: AcceptInput)
    ensures ExpiresOnly(s.invites, AcceptBatch(s, a).invites, Some(a.now))
  {
    hide FlipInvites, InsertSelects, RoleOf;
    FlipExpires(s, a.workspace, a.now);
  }

  lemma SweepExpires(invites: Invites, now: Time, cap: nat)
    ensures ExpiresOnly(invites, ExpireIds(invites, SweepChoice(invites, now, cap)), Some(now))
  {
    assert SweepChoice(invites, now, cap) <= LapsedIds(invites, now);
  }

  lemma RevokeExpires(s: Store, ws: WorkspaceId, id: InviteId)
    ensures ExpiresOnly(s.invites, Revoke(s, ws, id).0.invites, None)
  {
  }

  lemma NothingExpires(invites: Invites)
    ensures ExpiresOnly(invites, invites, None)
  {
  }

  /** A step expires only rows that have lapsed by its own clock. */
  lemma StepExpires(sys: Sys, step: Step, mode: DeploymentMode)
    ensures ExpiresOnly(sys.store.invites, Apply(sys, step, mode).store.invites, StepClock(sys, step))
  {
    hide ExpiresOnly, CreateBatch, AcceptBatch, Flip, Revoke;
    NothingExpires(sys.store.invites);
    match step
    case CommitCreate(rid, id) =>
      if rid in sys.inflight && sys.inflight[rid].CreateRequest? {
        CreateExpires(sys.store, id, sys.inflight[rid].input, sys.inflight[rid].limit);
      }
    case CommitAccept(rid) =>
      if rid in sys.inflight && sys.inflight[rid].AcceptRequest? {
        AcceptExpires(sys.store, sys.inflight[rid].accept);
      }
    case FlipWorkspace(ws, now) => FlipExpires(sys.store, ws, now);
    case Sweep(now, cap) => SweepExpires(sys.store.invites, now, cap);
    case RevokeInvite(ws, id) => RevokeExpires(sys.store, ws, id);
    case _ =>
  }

  lemma StaysExpiredBy(before: Invites, after: Invites, clock: Option<Time>, t: Time)
    requires ExpiredBy(before, t) && ExpiresOnly(before, after, clock) && (clock.Some? ==> clock.value <= t)
    ensures ExpiredBy(after, t)
  {
  }

  lemma {:induction false} RunExpiredBy(sys: Sys, steps: seq<Step>, mode: DeploymentMode, t: Time)
    requires ExpiredBy(sys.store.invites, t) && FlipsBy(sys, steps, mode, t)
    ensures ExpiredBy(Run(sys, steps, mode).store.invites, t)
    decreases |steps|
  {
    hide Apply, ExpiredBy, StepClock, ExpiresOnly;
    if steps != [] {
      var next := Apply(sys, steps[0], mode);
      StepExpires(sys, steps[0], mode);
      StaysExpiredBy(sys.store.invites, next.store.invites, StepClock(sys, steps[0]), t);
      RunExpiredBy(next, steps[1..], mode, t);
    }
  }

  /**
   * At any read time no earlier than every flip so far, each row is live exactly
   * when it would be with its own flip undone, and reads the same; so every live
   * list and every seat count is what it would be with all flips undone.
   */
  lemma LazyExpiryInvisible(sys: Sys, steps: seq<Step>, mode: DeploymentMode, t: Time, read: Time, ws: WorkspaceId)
    requires ExpiredBy(sys.store.invites, t) && FlipsBy(sys, steps, mode, t) && t <= read
    ensures var s := Run(sys, steps, mode).store;
            var never := s.(invites := Unflip(s.invites));
            && (forall id | id in s.invites :: Live(s.invites[id], read) == Live(never.invites[id], read))
            && (forall id | id in s.invites && Live(s.invites[id], read) :: s.invites[id] == never.invites[id])
            && LiveIds(s.invites, ws, read) == LiveIds(never.invites, ws, read)
            && SeatsCounted(s, ws, read) == SeatsCounted(never, ws, read)
  {
    RunExpiredBy(sys, steps, mode, t);
    var s := Run(sys, steps, mode).store;
    assert LiveIds(s.invites, ws, read) == LiveIds(Unflip(s.invites), ws, read);
  }
}
