/** What one create or accept request answers and writes, for every input. */
module InviteOutcomes {
  import opened Prelude
  import opened Collation
  import opened Entitlement
  import opened InviteModel
  import opened InviteRuns

  predicate LiveDuplicate(s: Store, ws: WorkspaceId, login: string, now: Time) {
    exists id :: id in s.invites && s.invites[id].workspace == ws && Live(s.invites[id], now)
                 && Fold(s.invites[id].login) == Fold(login)
  }

  lemma FlippedDuplicateIsLive(s: Store, ws: WorkspaceId, login: string, now: Time)
    ensures PendingExists(Flip(s, ws, now).invites, ws, login) <==> LiveDuplicate(s, ws, login, now)
  {
    var flipped := Flip(s, ws, now).invites;
    if LiveDuplicate(s, ws, login, now) {
      var id :| id in s.invites && s.invites[id].workspace == ws && Live(s.invites[id], now)
                && Fold(s.invites[id].login) == Fold(login);
      assert id in flipped && flipped[id] == s.invites[id];
    }
    if PendingExists(flipped, ws, login) {
      var id :| id in flipped && flipped[id].workspace == ws && flipped[id].status.Pending?
                && Fold(flipped[id].login) == Fold(login);
      assert Live(s.invites[id], now);
    }
  }

  /**
   * A create is refused by the cap exactly when members and live invites fill
   * it, and only below the cap by a live invite for the same login. The cap
   * refusal keeps the flip, the duplicate refusal rolls it back.
   */
  lemma CreateOutcomeExact(s: Store, id: InviteId, c: CreateInput, limit: Option<nat>)
    requires id !in s.invites
    ensures var full := limit.Some? && SeatsCounted(s, c.workspace, c.now) >= limit.value;
            var taken := LiveDuplicate(s, c.workspace, c.login, c.now);
            var flipped := Flip(s, c.workspace, c.now);
            CreateBatch(s, id, c, limit) ==
              if full then (flipped, SeatCapRefusal(limit.value))
              else if taken then (s, PendingExistsRefusal)
              else (flipped.(invites := flipped.invites[id := NewInvite(c)]), Created(id))
  {
    FlippedDuplicateIsLive(s, c.workspace, c.login, c.now);
    FlippedPendingIsLive(s, c.workspace, c.now);
  }

  /** The invite is pending and unlapsed, addressed to this login, and its plan resolves. */
  predicate AcceptReady(s: Store, id: InviteId, login: string, now: Time, mode: DeploymentMode) {
    id in s.invites && Live(s.invites[id], now) && Fold(s.invites[id].login) == Fold(login)
    && ResolvePlan(s.billing, s.invites[id].workspace, mode).Some?
  }

  function AcceptInputFor(s: Store, id: InviteId, login: string, now: Time, mode: DeploymentMode): AcceptInput
    requires AcceptReady(s, id, login, now, mode)
  {
    var ws := s.invites[id].workspace;
    AcceptInput(id, ws, login, now, mode, ResolvePlan(s.billing, ws, mode).value.includedMembers)
  }

  /** The whole effect of admitting as `role`: one membership (unless held already) and the consumed invite. */
  function AdmittedStore(s: Store, id: InviteId, login: string, now: Time, role: MemberRole): Store
    requires id in s.invites && Fold(login) in s.users
  {
    var i := s.invites[id];
    var key := (i.workspace, s.users[Fold(login)]);
    Flip(s, i.workspace, now).(
      members := if key in s.members then s.members else s.members[key := role],
      invites := FlipInvites(s.invites, i.workspace, now)[id := i.(status := Accepted, acceptedAt := Some(now))])
  }

  /**
   * With nothing between its statements, an accept of a live invite by a known
   * login succeeds exactly when the login is already a member or both guards
   * allow it; the free slot wins when both refuse; a refusal only flips lapsed
   * rows of the workspace, so the invite stays pending.
   */
  lemma AcceptOutcomeExact(s: Store, id: InviteId, login: string, now: Time, mode: DeploymentMode)
    requires AcceptReady(s, id, login, now, mode) && Fold(login) in s.users
    ensures var a := AcceptInputFor(s, id, login, now, mode);
            var member := RoleOf(s, a.workspace, login);
            var slotFree := AcceptFreeGuard(s, a.workspace, login, mode);
            var seatFree := AcceptSeatGuard(s, a.workspace, a.limit);
            var role := if s.invites[id].role.InviteAdmin? then Admin else Member;
            Accept(s, id, login, now, mode) ==
              if member.Some? then (AdmittedStore(s, id, login, now, role), Admitted(a.workspace, member.value))
              else if !slotFree then (Flip(s, a.workspace, now), FreeSlotRefusal)
              else if !seatFree then (Flip(s, a.workspace, now), MemberCap(a.limit.value))
              else (AdmittedStore(s, id, login, now, role), Admitted(a.workspace, role))
  {
  }

  /**
   * Outside the promise: a login with no users row is never admitted, and with
   * a seat free it is told its free slot is taken although it holds none.
   */
  lemma AcceptWithoutUserRow(s: Store, id: InviteId, login: string, now: Time, mode: DeploymentMode)
    requires AcceptReady(s, id, login, now, mode) && Fold(login) !in s.users
    ensures var a := AcceptInputFor(s, id, login, now, mode);
            Accept(s, id, login, now, mode) ==
              (Flip(s, a.workspace, now),
               if AcceptSeatGuard(s, a.workspace, a.limit) then FreeSlotRefusal else MemberCap(a.limit.value))
  {
  }

  /** Whatever the input, an accept that does not admit leaves the store as it was or only flips lapsed rows of the
      invite's workspace. */
  lemma RefusalWritesNothing(s: Store, id: InviteId, login: string, now: Time, mode: DeploymentMode)
    requires !Accept(s, id, login, now, mode).1.Admitted?
    ensures var after := Accept(s, id, login, now, mode).0;
            after == s || (id in s.invites && after == Flip(s, s.invites[id].workspace, now))
  {
  }

  /** What an admitting accept leaves behind: an accepted row, and the membership it answered with. */
  lemma AdmittedLeaves(s: Store, id: InviteId, login: string, now: Time, mode: DeploymentMode)
    requires Accept(s, id, login, now, mode).1.Admitted?
    ensures var (after, answer) := Accept(s, id, login, now, mode);
            && id in after.invites && after.invites[id].status.Accepted? && Fold(after.invites[id].login) == Fold(login)
            && answer == Admitted(after.invites[id].workspace, answer.role)
            && RoleOf(after, after.invites[id].workspace, login) == Some(answer.role)
  {
    if AcceptReady(s, id, login, now, mode) {
      if Fold(login) in s.users {
        AcceptOutcomeExact(s, id, login, now, mode);
      } else {
        AcceptWithoutUserRow(s, id, login, now, mode);
      }
    }
  }

  lemma AcceptOfAccepted(s: Store, id: InviteId, login: string, now: Time, mode: DeploymentMode)
    requires id in s.invites && s.invites[id].status.Accepted? && Fold(s.invites[id].login) == Fold(login)
    requires RoleOf(s, s.invites[id].workspace, login).Some?
    ensures Accept(s, id, login, now, mode) ==
            (s, Admitted(s.invites[id].workspace, RoleOf(s, s.invites[id].workspace, login).value))
  {
  }

  lemma RoleIgnoresCase(s: Store, ws: WorkspaceId, login: string, again: string)
    requires Fold(again) == Fold(login)
    ensures RoleOf(s, ws, again) == RoleOf(s, ws, login)
  {
  }

  /** Accepting again, at any time and with any spelling of the login, gives the same answer and writes nothing. */
  lemma RepeatAccept(s: Store, id: InviteId, login: string, now: Time, again: string, later: Time, mode: DeploymentMode,
      mode': DeploymentMode)
    requires Accept(s, id, login, now, mode).1.Admitted? && Fold(again) == Fold(login)
    ensures Accept(Accept(s, id, login, now, mode).0, id, again, later, mode') == Accept(s, id, login, now, mode)
  {
    hide *;
    var after := Accept(s, id, login, now, mode).0;
    AdmittedLeaves(s, id, login, now, mode);
    RoleIgnoresCase(after, after.invites[id].workspace, login, again);
    AcceptOfAccepted(after, id, again, later, mode');
  }

  /** A revocation, expiry or other acceptance that lands between the reads and the batch wins: the batch admits
      nobody. */
  lemma DeadInviteAdmitsNobody(s: Store, a: AcceptInput)
    requires a.inviteId in s.invites ==> !Live(s.invites[a.inviteId], a.now)
    ensures AcceptBatch(s, a) == Flip(s, a.workspace, a.now)
  {
  }
}
