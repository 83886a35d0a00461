/**
 * Concurrent runs over the invitation store. A request is split into the reads
 * it makes first, one step each, and the one atomic batch it commits later, so a
 * run is any interleaving of reads, batches, sweeps, revocations, removals and
 * plan writes.
 */
module InviteRuns {
  import opened Prelude
  import opened Collation
  import opened Entitlement
  import opened InviteModel
  import opened InviteSweep

  /** An accept reads its invite first and the plan's limit after that; `accept.limit` counts from then on. */
  datatype Request =
    | CreateRequest(input: CreateInput, limit: Option<nat>)
    | AcceptSeen(accept: AcceptInput)
    | AcceptRequest(accept: AcceptInput)

  datatype Sys = Sys(store: Store, inflight: map<nat, Request>)

  datatype Step =
    | ReadForCreate(rid: nat, input: CreateInput)
    | CommitCreate(rid: nat, id: InviteId)
    | ReadForAccept(rid: nat, inviteId: InviteId, login: string, now: Time)
    | PlanForAccept(rid: nat)
    | CommitAccept(rid: nat)
    | FlipWorkspace(ws: WorkspaceId, now: Time)
    | Sweep(now: Time, cap: nat)
    | RevokeInvite(ws: WorkspaceId, inviteId: InviteId)
    | RemoveMember(ws: WorkspaceId, user: UserId)
    | SetSubscription(ws: WorkspaceId, subscription: Subscription)
    | SignUp(login: string, user: UserId)
    | DeleteWorkspace(ws: WorkspaceId)

  ghost function Apply(sys: Sys, step: Step, mode: DeploymentMode): Sys {
    var s := sys.store;
    match step
    case ReadForCreate(rid, c) =>
      var plan := ResolvePlan(s.billing, c.workspace, mode);
      if plan.None? then sys
      else sys.(inflight := sys.inflight[rid := CreateRequest(c, plan.value.includedMembers)])
    case CommitCreate(rid, id) =>
      if rid in sys.inflight && sys.inflight[rid].CreateRequest?
      then Sys(CreateBatch(s, id, sys.inflight[rid].input, sys.inflight[rid].limit).0, sys.inflight - {rid})
      else sys
    case ReadForAccept(rid, inviteId, login, now) =>
      if inviteId !in s.invites || Fold(s.invites[inviteId].login) != Fold(login) || !Live(s.invites[inviteId], now)
      then sys
      else
        var a := AcceptInput(inviteId, s.invites[inviteId].workspace, login, now, mode, None);
        sys.(inflight := sys.inflight[rid := AcceptSeen(a)])
    case PlanForAccept(rid) =>
      if rid in sys.inflight && sys.inflight[rid].AcceptSeen? then
        var a := sys.inflight[rid].accept;
        var plan := ResolvePlan(s.billing, a.workspace, mode);
        if plan.None? then sys.(inflight := sys.inflight - {rid})
        else sys.(inflight := sys.inflight[rid := AcceptRequest(a.(limit := plan.value.includedMembers))])
      else sys
    case CommitAccept(rid) =>
      if rid in sys.inflight && sys.inflight[rid].AcceptRequest?
      then Sys(AcceptBatch(s, sys.inflight[rid].accept), sys.inflight - {rid})
      else sys
    case FlipWorkspace(ws, now) => sys.(store := Flip(s, ws, now))
    case Sweep(now, cap) => sys.(store := s.(invites := ExpireIds(s.invites, SweepChoice(s.invites, now, cap))))
    case RevokeInvite(ws, id) => sys.(store := Revoke(s, ws, id).0)
    case RemoveMember(ws, user) => sys.(store := s.(members := s.members - {(ws, user)}))
    case SetSubscription(ws, sub) =>
      sys.(store := s.(billing := s.billing.(subscriptions := s.billing.subscriptions[ws := sub])))
    case SignUp(login, user) =>
      if Fold(login) in s.users || user in s.users.Values || (exists k :: k in s.members && k.1 == user) then sys
      else sys.(store := s.(users := s.users[Fold(login) := user]))
    case DeleteWorkspace(ws) => sys.(store := s.(live := s.live - {ws}))
  }

  ghost function Run(sys: Sys, steps: seq<Step>, mode: DeploymentMode): Sys
    decreases |steps|
  {
    if steps == [] then sys else Run(Apply(sys, steps[0], mode), steps[1..], mode)
  }

  // ----- seat cap -----

  /** The workspace's current seat cap; None is uncapped (or unresolvable). */
  function CapOf(s: Store, ws: WorkspaceId, mode: DeploymentMode): Option<nat> {
    var plan := ResolvePlan(s.billing, ws, mode);
    if plan.None? then None else plan.value.includedMembers
  }

  predicate WithinCap(n: nat, cap: Option<nat>) { cap.Some? ==> n <= cap.value }
  predicate CapAtMost(a: Option<nat>, b: Option<nat>) { b.Some? ==> a.Some? && a.value <= b.value }

  /** A cap is at most itself, any higher one, and none. */
  lemma CapsCompare(a: Option<nat>, m: nat, n: nat)
    ensures CapAtMost(a, a) && CapAtMost(a, None) && !CapAtMost(None, Some(n))
    ensures CapAtMost(Some(m), Some(n)) <==> m <= n
  {
  }

  function RequestWorkspace(r: Request): WorkspaceId {
    if r.CreateRequest? then r.input.workspace else r.accept.workspace
  }

  function RequestLimit(r: Request): Option<nat>
    requires !r.AcceptSeen?
  {
    if r.CreateRequest? then r.limit else r.accept.limit
  }

  /** No in-flight request of the workspace read a limit above the current cap. */
  predicate LimitsReadAtMostCap(sys: Sys, ws: WorkspaceId, mode: DeploymentMode) {
    forall rid | rid in sys.inflight && !sys.inflight[rid].AcceptSeen? && RequestWorkspace(sys.inflight[rid]) == ws ::
      CapAtMost(RequestLimit(sys.inflight[rid]), CapOf(sys.store, ws, mode))
  }

  predicate SeatInvariant(sys: Sys, ws: WorkspaceId, mode: DeploymentMode) {
    && WithinCap(SeatsHeld(sys.store, ws), CapOf(sys.store, ws, mode))
    && LimitsReadAtMostCap(sys, ws, mode)
  }

  /** Along the run the workspace's cap is only ever kept or raised. */
  ghost predicate CapNeverLowered(sys: Sys, steps: seq<Step>, ws: WorkspaceId, mode: DeploymentMode)
    decreases |steps|
  {
    steps == [] ||
    var next := Apply(sys, steps[0], mode);
    CapAtMost(CapOf(sys.store, ws, mode), CapOf(next.store, ws, mode)) && CapNeverLowered(next, steps[1..], ws, mode)
  }

  lemma {:induction false} SubsetSize<T>(a: set<T>, b: set<T>)
    requires a <= b
    ensures |a| <= |b|
  {
    if a != {} {
      var x :| x in a;
      SubsetSize(a - {x}, b - {x});
    }
  }

  lemma HeldShrinks(s: Store, s': Store, ws: WorkspaceId)
    requires MemberKeys(s'.members, ws) <= MemberKeys(s.members, ws)
    requires PendingIds(s'.invites, ws) <= PendingIds(s.invites, ws)
    ensures SeatsHeld(s', ws) <= SeatsHeld(s, ws)
  {
    SubsetSize(MemberKeys(s'.members, ws), MemberKeys(s.members, ws));
    SubsetSize(PendingIds(s'.invites, ws), PendingIds(s.invites, ws));
  }

  /** After a flip the stored pending rows are exactly the live ones. */
  lemma FlippedPendingIsLive(s: Store, ws: WorkspaceId, now: Time)
    ensures PendingIds(Flip(s, ws, now).invites, ws) == LiveIds(s.invites, ws, now)
    ensures LiveIds(Flip(s, ws, now).invites, ws, now) == LiveIds(s.invites, ws, now)
    ensures forall other :: PendingIds(Flip(s, ws, now).invites, other) <= PendingIds(s.invites, other)
  {
  }

  /** A create that succeeds lands at or below the limit it read; no create adds a seat anywhere else. */
  lemma CreateSeats(s: Store, id: InviteId, c: CreateInput, limit: Option<nat>, ws: WorkspaceId)
    ensures var r := CreateBatch(s, id, c, limit);
            if r.1.Created? && ws == c.workspace
            then SeatsHeld(r.0, ws) == SeatsCounted(s, ws, c.now) + 1 && WithinCap(SeatsHeld(r.0, ws), limit)
            else SeatsHeld(r.0, ws) <= SeatsHeld(s, ws)
  {
    hide PendingExists, PendingIds, LiveIds, MemberKeys;
    var r := CreateBatch(s, id, c, limit);
    var flipped := Flip(s, c.workspace, c.now);
    FlippedPendingIsLive(s, c.workspace, c.now);
    if r.1.Created? {
      PendingAdded(flipped.invites, id, c, ws);
    }
    HeldShrinks(s, flipped, ws);
  }

  lemma PendingAdded(invites: Invites, id: InviteId, c: CreateInput, ws: WorkspaceId)
    requires id !in invites
    ensures var after := invites[id := NewInvite(c)];
            PendingIds(after, ws) == PendingIds(invites, ws) + (if ws == c.workspace then {id} else {})
            && id !in PendingIds(invites, ws)
  {
  }

  lemma AdmitSeats(s: Store, a: AcceptInput, ws: WorkspaceId)
    ensures var after := AdmitMember(s, a);
            if after == s || s.invites[a.inviteId].workspace != ws
            then MemberKeys(after.members, ws) == MemberKeys(s.members, ws)
            else |MemberKeys(after.members, ws)| == |MemberKeys(s.members, ws)| + 1
  {
    var after := AdmitMember(s, a);
    if after != s {
      var key := (s.invites[a.inviteId].workspace, s.users[Fold(a.login)]);
      assert after.members.Keys == s.members.Keys + {key};
      if key.0 == ws {
        assert MemberKeys(after.members, ws) == MemberKeys(s.members, ws) + {key};
      } else {
        assert MemberKeys(after.members, ws) == MemberKeys(s.members, ws);
      }
    }
  }

  lemma ConsumeSeats(s: Store, a: AcceptInput, ws: WorkspaceId)
    ensures var after := ConsumeInvite(s, a);
            if after == s || s.invites[a.inviteId].workspace != ws
            then PendingIds(after.invites, ws) == PendingIds(s.invites, ws)
            else |PendingIds(after.invites, ws)| == |PendingIds(s.invites, ws)| - 1
  {
    var after := ConsumeInvite(s, a);
    if after != s {
      if s.invites[a.inviteId].workspace == ws {
        assert PendingIds(after.invites, ws) == PendingIds(s.invites, ws) - {a.inviteId};
      } else {
        assert PendingIds(after.invites, ws) == PendingIds(s.invites, ws);
      }
    }
  }

  /**
   * An acceptance converts a pending row, so it never adds a held seat; and
   * whenever it adds a member, the members stay within the limit it read.
   */
  lemma AcceptSeats(s: Store, a: AcceptInput, ws: WorkspaceId)
    ensures SeatsHeld(AcceptBatch(s, a), ws) <= SeatsHeld(s, ws)
    ensures var grown := MemberKeys(AcceptBatch(s, a).members, ws);
            grown != MemberKeys(s.members, ws) ==> WithinCap(|grown|, a.limit)
  {
    var flipped := Flip(s, a.workspace, a.now);
    FlippedPendingIsLive(s, a.workspace, a.now);
    HeldShrinks(s, flipped, ws);
    AdmitSeats(flipped, a, ws);
    ConsumeSeats(AdmitMember(flipped, a), a, ws);
  }

  lemma StepKeepsSeats(sys: Sys, step: Step, ws: WorkspaceId, mode: DeploymentMode)
    requires SeatInvariant(sys, ws, mode)
    requires CapAtMost(CapOf(sys.store, ws, mode), CapOf(Apply(sys, step, mode).store, ws, mode))
    ensures SeatInvariant(Apply(sys, step, mode), ws, mode)
  {
    hide CreateBatch, AcceptBatch, SeatsHeld;
    var next := Apply(sys, step, mode);
    match step
    case CommitCreate(rid, id) =>
      if next != sys { CreateSeats(sys.store, id, sys.inflight[rid].input, sys.inflight[rid].limit, ws); }
    case CommitAccept(rid) =>
      if next != sys { AcceptSeats(sys.store, sys.inflight[rid].accept, ws); }
    case FlipWorkspace(other, now) =>
      FlippedPendingIsLive(sys.store, other, now);
      HeldShrinks(sys.store, next.store, ws);
    case _ =>
      HeldShrinks(sys.store, next.store, ws);
  }

  /**
   * Over every interleaving: while a workspace's cap is only kept or raised,
   * members plus pending rows never exceed it. No order is assumed between the
   * clocks different requests read.
   */
  lemma {:induction false} SeatsNeverExceedCap(sys: Sys, steps: seq<Step>, ws: WorkspaceId, mode: DeploymentMode)
    requires SeatInvariant(sys, ws, mode)
    requires CapNeverLowered(sys, steps, ws, mode)
    ensures SeatInvariant(Run(sys, steps, mode), ws, mode)
    ensures var s := Run(sys, steps, mode).store;
            CapOf(s, ws, mode).Some? ==>
              |MemberKeys(s.members, ws)| + |PendingIds(s.invites, ws)| <= CapOf(s, ws, mode).value
    decreases |steps|
  {
    if steps != [] {
      StepKeepsSeats(sys, steps[0], ws, mode);
      SeatsNeverExceedCap(Apply(sys, steps[0], mode), steps[1..], ws, mode);
    }
  }
}
