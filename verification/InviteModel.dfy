/**
 * The invitation store as a value: rows, the SQL guards and the effect of each
 * atomic batch. Timestamps are integers and row ids carry an integer rank: the stored
 * ISO-8601 stamps and UUIDs are only ever compared, never computed with.
 */
module InviteModel {
  import opened Prelude
  import opened Collation
  import opened Entitlement

  type UserId = string
  /** A row id, ranked by text order. */
  datatype InviteId = RowId(rank: int)
  type Time = int

  datatype InviteRole = InviteAdmin | InviteMember
  datatype MemberRole = Owner | Admin | Member
  datatype InviteStatus = Pending | Accepted | Revoked | Expired

  datatype Invite = Invite(
    workspace: WorkspaceId, login: string, role: InviteRole, status: InviteStatus,
    invitedBy: UserId, createdAt: Time, expiresAt: Time, acceptedAt: Option<Time>)

  type Invites = map<InviteId, Invite>
  type Members = map<(WorkspaceId, UserId), MemberRole>

  /** `users` is keyed by folded login: one users row per login, ignoring case. */
  datatype Store = Store(
    invites: Invites, members: Members, users: map<string, UserId>,
    live: set<WorkspaceId>, billing: Billing)

  function MemberRoleFor(r: InviteRole): MemberRole { if r.InviteAdmin? then Admin else Member }

  // ----- reads -----

  predicate Lapsed(i: Invite, now: Time) { i.status.Pending? && i.expiresAt <= now }
  predicate Live(i: Invite, now: Time) { i.status.Pending? && i.expiresAt > now }

  function PendingIds(invites: Invites, ws: WorkspaceId): set<InviteId> {
    set id | id in invites && invites[id].workspace == ws && invites[id].status.Pending?
  }

  function LiveIds(invites: Invites, ws: WorkspaceId, now: Time): set<InviteId> {
    set id | id in invites && invites[id].workspace == ws && Live(invites[id], now)
  }

  function MemberKeys(members: Members, ws: WorkspaceId): set<(WorkspaceId, UserId)> {
    set k | k in members && k.0 == ws
  }

  /** Members plus rows whose stored status is pending: what the cap bounds. */
  function SeatsHeld(s: Store, ws: WorkspaceId): nat {
    |MemberKeys(s.members, ws)| + |PendingIds(s.invites, ws)|
  }

  /** Members plus live invites at `now`: what the seat guard counts. */
  function SeatsCounted(s: Store, ws: WorkspaceId, now: Time): nat {
    |MemberKeys(s.members, ws)| + |LiveIds(s.invites, ws, now)|
  }

  function RoleOf(s: Store, ws: WorkspaceId, login: string): Option<MemberRole> {
    if Fold(login) in s.users && (ws, s.users[Fold(login)]) in s.members
    then Some(s.members[(ws, s.users[Fold(login)])]) else None
  }

  function FreeMemberships(s: Store, user: UserId): set<(WorkspaceId, UserId)> {
    set k | k in s.members && k.1 == user && k.0 in s.live && !IsPaid(s.billing, k.0)
  }

  function FreeCount(s: Store, login: string): nat {
    if Fold(login) in s.users then |FreeMemberships(s, s.users[Fold(login)])| else 0
  }

  // ----- guards carried by the writes -----

  predicate SeatGuard(s: Store, ws: WorkspaceId, now: Time, limit: Option<nat>) {
    limit.Some? ==> SeatsCounted(s, ws, now) < limit.value
  }

  predicate AcceptSeatGuard(s: Store, ws: WorkspaceId, limit: Option<nat>) {
    limit.Some? ==> |MemberKeys(s.members, ws)| < limit.value
  }

  predicate AcceptFreeGuard(s: Store, ws: WorkspaceId, login: string, mode: DeploymentMode) {
    mode.Saas? ==> IsPaid(s.billing, ws) || FreeCount(s, login) < 1
  }

  // ----- single statements -----

  function FlipRow(i: Invite, ws: WorkspaceId, now: Time): Invite {
    if i.workspace == ws && Lapsed(i, now) then i.(status := Expired) else i
  }

  function FlipInvites(invites: Invites, ws: WorkspaceId, now: Time): Invites {
    map id | id in invites :: FlipRow(invites[id], ws, now)
  }

  function Flip(s: Store, ws: WorkspaceId, now: Time): Store {
    s.(invites := FlipInvites(s.invites, ws, now))
  }

  /** The partial unique index on pending rows: (workspace, login ignoring case). */
  predicate PendingExists(invites: Invites, ws: WorkspaceId, login: string) {
    exists id :: id in invites && invites[id].workspace == ws && invites[id].status.Pending?
                 && Fold(invites[id].login) == Fold(login)
  }

  // ----- create -----

  datatype CreateInput = CreateInput(
    workspace: WorkspaceId, login: string, role: InviteRole, invitedBy: UserId, now: Time, expiresAt: Time)

  datatype CreateOutcome = Created(id: InviteId) | PendingExistsRefusal | SeatCapRefusal(limit: nat) | NoPlan

  function NewInvite(c: CreateInput): Invite {
    Invite(c.workspace, c.login, c.role, Pending, c.invitedBy, c.now, c.expiresAt, None)
  }

  /**
   * Flip, then the guarded insert. A guard that refuses leaves the flip in
   * place; a UNIQUE violation rolls the whole batch back, flip included.
   */
  function CreateBatch(s: Store, id: InviteId, c: CreateInput, limit: Option<nat>): (Store, CreateOutcome) {
    var flipped := Flip(s, c.workspace, c.now);
    if !SeatGuard(flipped, c.workspace, c.now, limit) then (flipped, SeatCapRefusal(limit.value))
    else if id in s.invites || PendingExists(flipped.invites, c.workspace, c.login) then (s, PendingExistsRefusal)
    else (flipped.(invites := flipped.invites[id := NewInvite(c)]), Created(id))
  }

  /** The whole create request with no other step between its read and its batch. */
  function Create(s: Store, id: InviteId, c: CreateInput, mode: DeploymentMode): (Store, CreateOutcome) {
    var plan := ResolvePlan(s.billing, c.workspace, mode);
    if plan.None? then (s, NoPlan) else CreateBatch(s, id, c, plan.value.includedMembers)
  }

  // ----- accept -----

  datatype Blocker = FreeSlotBlocks | SeatCapBlocks

  datatype AcceptOutcome =
    | Admitted(workspace: WorkspaceId, role: MemberRole)
    | NotFound
    | ExpiredNow
    | Gone
    | MemberCap(limit: nat)
    | FreeSlotRefusal
    | NoPlanForAccept

  datatype AcceptInput = AcceptInput(
    inviteId: InviteId, workspace: WorkspaceId, login: string, now: Time,
    mode: DeploymentMode, limit: Option<nat>)

  /** The row and user the membership insert selects, guards included. */
  predicate InsertSelects(s: Store, a: AcceptInput) {
    && a.inviteId in s.invites
    && Live(s.invites[a.inviteId], a.now)
    && Fold(a.login) in s.users
    && AcceptFreeGuard(s, s.invites[a.inviteId].workspace, a.login, a.mode)
    && AcceptSeatGuard(s, s.invites[a.inviteId].workspace, a.limit)
  }

  /** `INSERT … ON CONFLICT DO NOTHING`. */
  function AdmitMember(s: Store, a: AcceptInput): Store {
    if !InsertSelects(s, a) then s
    else
      var i := s.invites[a.inviteId];
      var key := (i.workspace, s.users[Fold(a.login)]);
      if key in s.members then s else s.(members := s.members[key := MemberRoleFor(i.role)])
  }

  function ConsumeInvite(s: Store, a: AcceptInput): Store {
    if a.inviteId in s.invites && Live(s.invites[a.inviteId], a.now)
       && RoleOf(s, s.invites[a.inviteId].workspace, a.login).Some?
    then s.(invites := s.invites[a.inviteId := s.invites[a.inviteId].(status := Accepted, acceptedAt := Some(a.now))])
    else s
  }

  /** The classifier row; only meaningful when the invite row still exists. */
  function Classify(s: Store, a: AcceptInput): Blocker
    requires a.inviteId in s.invites
  {
    var ws := s.invites[a.inviteId].workspace;
    if !AcceptFreeGuard(s, ws, a.login, a.mode) then FreeSlotBlocks
    else if !AcceptSeatGuard(s, ws, a.limit) then SeatCapBlocks
    else FreeSlotBlocks
  }

  function AcceptBatch(s: Store, a: AcceptInput): Store {
    ConsumeInvite(AdmitMember(Flip(s, a.workspace, a.now), a), a)
  }

  /** What the re-read after the batch answers; `s` is the state it reads. */
  function AcceptAnswer(s: Store, a: AcceptInput, blocker: Blocker): AcceptOutcome {
    var admitted := RoleOf(s, a.workspace, a.login);
    if admitted.Some? then Admitted(a.workspace, admitted.value)
    else if a.inviteId !in s.invites || s.invites[a.inviteId].status in {Revoked, Expired} then Gone
    else if a.limit.Some? && blocker.SeatCapBlocks? then MemberCap(a.limit.value)
    else FreeSlotRefusal
  }

  /** The whole accept request with no other step between its reads and its batch. */
  function Accept(s: Store, inviteId: InviteId, login: string, now: Time, mode: DeploymentMode)
    : (Store, AcceptOutcome)
  {
    if inviteId !in s.invites || Fold(s.invites[inviteId].login) != Fold(login) then (s, NotFound)
    else
      var i := s.invites[inviteId];
      if i.status in {Revoked, Expired} then (s, Gone)
      else if i.status.Accepted? then
        var role := RoleOf(s, i.workspace, login);
        (s, if role.None? then NotFound else Admitted(i.workspace, role.value))
      else if i.expiresAt <= now then (Flip(s, i.workspace, now), ExpiredNow)
      else
        var plan := ResolvePlan(s.billing, i.workspace, mode);
        if plan.None? then (s, NoPlanForAccept)
        else
          var a := AcceptInput(inviteId, i.workspace, login, now, mode, plan.value.includedMembers);
          var after := AcceptBatch(s, a);
          (after, AcceptAnswer(after, a, Classify(after, a)))
  }

  // ----- revoke -----

  /** No expiry condition: a lapsed row nobody has flipped yet is still revoked. */
  function Revoke(s: Store, ws: WorkspaceId, inviteId: InviteId): (Store, bool) {
    if inviteId in s.invites && s.invites[inviteId].workspace == ws && s.invites[inviteId].status.Pending?
    then (s.(invites := s.invites[inviteId := s.invites[inviteId].(status := Revoked)]), true)
    else (s, false)
  }

  // ----- scheduled sweep -----

  function LapsedIds(invites: Invites, now: Time): set<InviteId> {
    set id | id in invites && Lapsed(invites[id], now)
  }

  /** Sweep order: `expires_at`, then `id`. */
  predicate Before(invites: Invites, a: InviteId, b: InviteId)
    requires a in invites && b in invites
  {
    invites[a].expiresAt < invites[b].expiresAt || (invites[a].expiresAt == invites[b].expiresAt && a.rank < b.rank)
  }

  function ExpireIds(invites: Invites, ids: set<InviteId>): Invites {
    map id | id in invites :: if id in ids then invites[id].(status := Expired) else invites[id]
  }

  /** `chosen` is the first `cap` lapsed rows in sweep order. */
  ghost predicate IsSweepChoice(invites: Invites, now: Time, cap: nat, chosen: set<InviteId>) {
    && chosen <= LapsedIds(invites, now)
    && |chosen| == Min(cap, |LapsedIds(invites, now)|)
    && forall a, b | a in chosen && b in LapsedIds(invites, now) - chosen :: Before(invites, a, b)
  }
}
