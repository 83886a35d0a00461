/**
 * Lazy expiry against a run that never flips: over every interleaving, whatever
 * the clocks, exactly when a caller can tell the two apart.
 */
module InviteRefinement {
  import opened Prelude
  import opened Collation
  import opened Entitlement
  import opened InviteModel
  import opened InviteSweep
  import opened InviteRuns
  import opened InviteOutcomes
  import opened InviteSafety
  import opened InviteAnswers

  // ----- when a step tells -----

  /** Expired rows that are dead in the run that never flips as well: expired from the start or revoked
      there (`closed`), or accepted there (`taken`). */
  datatype Marks = Marks(closed: set<InviteId>, taken: set<InviteId>)

  function ExpiredIds(invites: Invites): set<InviteId> { set id | id in invites && invites[id].status.Expired? }

  function Start(s: Store): Marks { Marks(ExpiredIds(s.invites), {}) }

  /** Flipped during the run, and pending still where nothing flips. */
  predicate Flipped(s: Store, m: Marks, id: InviteId) {
    id in s.invites && s.invites[id].status.Expired? && id !in m.closed && id !in m.taken
  }

  /** A flipped row that a clock reading `now` would still call live. */
  predicate Hidden(s: Store, m: Marks, id: InviteId, now: Time) {
    Flipped(s, m, id) && s.invites[id].expiresAt > now
  }

  function HiddenIds(s: Store, m: Marks, ws: WorkspaceId, now: Time): set<InviteId> {
    set id | id in s.invites && s.invites[id].workspace == ws && Hidden(s, m, id, now)
  }

  predicate HiddenDuplicate(s: Store, m: Marks, ws: WorkspaceId, login: string, now: Time) {
    exists id :: id in HiddenIds(s, m, ws, now) && Fold(s.invites[id].login) == Fold(login)
  }

  /** The seats are free here but filled once hidden rows count, or the login is free here but holds a hidden row. */
  predicate CreateMisled(s: Store, m: Marks, id: InviteId, c: CreateInput, limit: Option<nat>) {
    && SeatGuard(s, c.workspace, c.now, limit)
    && (|| (limit.Some? && SeatsCounted(s, c.workspace, c.now) + |HiddenIds(s, m, c.workspace, c.now)| >= limit.value)
        || (id !in s.invites && !LiveDuplicate(s, c.workspace, c.login, c.now)
            && HiddenDuplicate(s, m, c.workspace, c.login, c.now)))
  }

  /** An accept meets a row that is live, or accepted, only where nothing flips. */
  predicate Missed(s: Store, m: Marks, id: InviteId, now: Time) { Hidden(s, m, id, now) || id in m.taken }

  predicate AcceptMisled(s: Store, m: Marks, a: AcceptInput) {
    Missed(s, m, a.inviteId, a.now) && RoleOf(s, a.workspace, a.login).None?
  }

  /** A read, create or accept that is answered otherwise than where nothing flips. */
  predicate Misled(sys: Sys, step: Step, m: Marks) {
    var s := sys.store;
    match step
    case CommitCreate(rid, id) =>
      && rid in sys.inflight && sys.inflight[rid].CreateRequest?
      && CreateMisled(s, m, id, sys.inflight[rid].input, sys.inflight[rid].limit)
    case ReadForAccept(_, id, login, now) =>
      id in s.invites && Fold(s.invites[id].login) == Fold(login) && Missed(s, m, id, now)
    case CommitAccept(rid) =>
      rid in sys.inflight && sys.inflight[rid].AcceptRequest? && AcceptMisled(s, m, sys.inflight[rid].accept)
    case _ => false
  }

  /** An accept's first read of a flipped row is told gone; where nothing flips it is told expired, or proceeds. */
  predicate ReadsFlipped(sys: Sys, step: Step, m: Marks) {
    && step.ReadForAccept? && step.inviteId in sys.store.invites
    && Fold(sys.store.invites[step.inviteId].login) == Fold(step.login) && Flipped(sys.store, m, step.inviteId)
  }

  predicate Addresses(s: Store, step: Step) {
    step.RevokeInvite? && step.inviteId in s.invites && s.invites[step.inviteId].workspace == step.ws
  }

  /** A revoke of a row that a flip of this run reached first, and no revoke or accept settled before. */
  predicate HitsFlipped(sys: Sys, step: Step, m: Marks) {
    Addresses(sys.store, step) && Flipped(sys.store, m, step.inviteId)
  }

  /** A member's accept of a hidden row is answered alike, but consumes the row only where nothing flips. */
  function AcceptMarks(s: Store, m: Marks, a: AcceptInput): Marks {
    if Hidden(s, m, a.inviteId, a.now) && RoleOf(s, a.workspace, a.login).Some?
    then m.(taken := m.taken + {a.inviteId}) else m
  }

  function NextMarks(sys: Sys, step: Step, m: Marks): Marks {
    match step
    case RevokeInvite(_, id) =>
      if Addresses(sys.store, step) && id !in m.taken then m.(closed := m.closed + {id}) else m
    case CommitAccept(rid) =>
      if rid in sys.inflight && sys.inflight[rid].AcceptRequest?
      then AcceptMarks(sys.store, m, sys.inflight[rid].accept) else m
    case _ => m
  }

  ghost function MarksAfter(sys: Sys, steps: seq<Step>, mode: DeploymentMode, m: Marks): Marks
    decreases |steps|
  {
    if steps == [] then m else MarksAfter(Apply(sys, steps[0], mode), steps[1..], mode, NextMarks(sys, steps[0], m))
  }

  /** No step of the run is misled. Stored rows, clocks read and past calls decide it, all in the run that flips. */
  ghost predicate NoneMisled(sys: Sys, steps: seq<Step>, mode: DeploymentMode, m: Marks)
    decreases |steps|
  {
    steps == []
    || (!Misled(sys, steps[0], m)
        && NoneMisled(Apply(sys, steps[0], mode), steps[1..], mode, NextMarks(sys, steps[0], m)))
  }

  ghost predicate NoneHitsFlipped(sys: Sys, steps: seq<Step>, mode: DeploymentMode, m: Marks)
    decreases |steps|
  {
    steps == []
    || (!HitsFlipped(sys, steps[0], m)
        && NoneHitsFlipped(Apply(sys, steps[0], mode), steps[1..], mode, NextMarks(sys, steps[0], m)))
  }

  ghost predicate NoneReadsFlipped(sys: Sys, steps: seq<Step>, mode: DeploymentMode, m: Marks)
    decreases |steps|
  {
    steps == []
    || (!ReadsFlipped(sys, steps[0], m)
        && NoneReadsFlipped(Apply(sys, steps[0], mode), steps[1..], mode, NextMarks(sys, steps[0], m)))
  }

  // ----- how the two stores hang together -----

  predicate LinkedRow(lazy: Invite, never: Invite, closed: bool, taken: bool) {
    && never.workspace == lazy.workspace && never.login == lazy.login
    && (closed ==> !lazy.status.Pending? && !taken) && (taken ==> lazy.status.Expired?)
    && if !lazy.status.Expired? then never == lazy
       else if taken then never.status.Accepted?
       else if closed then never.status in {Revoked, Expired}
       else never == lazy.(status := Pending)
  }

  predicate LinkedRows(lazy: Invites, never: Invites, m: Marks) {
    && lazy.Keys == never.Keys && m.closed <= lazy.Keys && m.taken <= lazy.Keys
    && forall id | id in lazy :: LinkedRow(lazy[id], never[id], id in m.closed, id in m.taken)
  }

  /** What the two runs never differ in while no read or write is misled. */
  predicate SameShared(lazy: Store, never: Store) {
    && lazy.members == never.members && lazy.users == never.users
    && lazy.live == never.live && lazy.billing == never.billing
  }

  predicate LinkedStores(lazy: Store, never: Store, m: Marks) {
    SameShared(lazy, never) && LinkedRows(lazy.invites, never.invites, m)
  }

  predicate Linked(lazy: Sys, never: Sys, m: Marks) {
    lazy.inflight == never.inflight && LinkedStores(lazy.store, never.store, m) && AcceptsWellAddressed(lazy)
  }

  lemma FlipLinks(lazy: Invites, never: Invites, m: Marks, ws: WorkspaceId, now: Time)
    requires LinkedRows(lazy, never, m)
    ensures LinkedRows(FlipInvites(lazy, ws, now), never, m)
  {
  }

  lemma SweepLinks(lazy: Invites, never: Invites, m: Marks, now: Time, cap: nat)
    requires LinkedRows(lazy, never, m)
    ensures LinkedRows(ExpireIds(lazy, SweepChoice(lazy, now, cap)), never, m)
  {
    assert SweepChoice(lazy, now, cap) <= LapsedIds(lazy, now);
  }

  /** A row is live where nothing flips exactly when it is live here or hidden. */
  lemma LiveOrHidden(lazy: Store, never: Store, m: Marks, id: InviteId, now: Time)
    requires LinkedStores(lazy, never, m) && id in lazy.invites
    ensures Live(never.invites[id], now) <==> Live(lazy.invites[id], now) || Hidden(lazy, m, id, now)
    ensures !(Live(lazy.invites[id], now) && Hidden(lazy, m, id, now))
    ensures Live(lazy.invites[id], now) ==> never.invites[id] == lazy.invites[id]
    ensures never.invites[id].workspace == lazy.invites[id].workspace
            && never.invites[id].login == lazy.invites[id].login
  {
  }

  lemma DisjointSizes<T>(a: set<T>, b: set<T>)
    requires a !! b
    ensures |a + b| == |a| + |b|
  {
  }

  lemma HiddenSeats(lazy: Store, never: Store, m: Marks, ws: WorkspaceId, now: Time)
    requires LinkedStores(lazy, never, m)
    ensures LiveIds(never.invites, ws, now) == LiveIds(lazy.invites, ws, now) + HiddenIds(lazy, m, ws, now)
    ensures LiveIds(lazy.invites, ws, now) !! HiddenIds(lazy, m, ws, now)
    ensures SeatsCounted(never, ws, now) == SeatsCounted(lazy, ws, now) + |HiddenIds(lazy, m, ws, now)|
  {
    hide Live, Hidden, LinkedRows;
    SameKeys(lazy, never, m);
    forall id | id in lazy.invites
      ensures Live(never.invites[id], now) <==> Live(lazy.invites[id], now) || Hidden(lazy, m, id, now)
      ensures !(Live(lazy.invites[id], now) && Hidden(lazy, m, id, now))
      ensures never.invites[id].workspace == lazy.invites[id].workspace
    {
      LiveOrHidden(lazy, never, m, id, now);
    }
    assert LiveIds(never.invites, ws, now) == LiveIds(lazy.invites, ws, now) + HiddenIds(lazy, m, ws, now);
    DisjointSizes(LiveIds(lazy.invites, ws, now), HiddenIds(lazy, m, ws, now));
  }

  lemma SameKeys(lazy: Store, never: Store, m: Marks)
    requires LinkedStores(lazy, never, m)
    ensures lazy.invites.Keys == never.invites.Keys
  {
  }

  // ----- create -----

  lemma DuplicateOrHidden(lazy: Store, never: Store, m: Marks, ws: WorkspaceId, login: string, now: Time)
    requires LinkedStores(lazy, never, m)
    ensures LiveDuplicate(never, ws, login, now) <==>
            LiveDuplicate(lazy, ws, login, now) || HiddenDuplicate(lazy, m, ws, login, now)
  {
    hide Live, Hidden, LinkedRows;
    SameKeys(lazy, never, m);
    forall id | id in lazy.invites
      ensures Live(never.invites[id], now) <==> Live(lazy.invites[id], now) || Hidden(lazy, m, id, now)
      ensures never.invites[id].workspace == lazy.invites[id].workspace
      ensures never.invites[id].login == lazy.invites[id].login
    {
      LiveOrHidden(lazy, never, m, id, now);
    }
  }

  lemma CreateLinks(lazy: Store, never: Store, m: Marks, id: InviteId, c: CreateInput, limit: Option<nat>)
    requires LinkedStores(lazy, never, m)
    ensures var r, n := CreateBatch(lazy, id, c, limit), CreatePure(never, id, c, limit);
            && (r.1 == n.1 <==> !CreateMisled(lazy, m, id, c, limit))
            && (r.1 == n.1 ==> LinkedStores(r.0, n.0, m))
  {
    hide LinkedRows, LiveIds, HiddenIds, LiveDuplicate, HiddenDuplicate, PendingExists, FlipInvites;
    HiddenSeats(lazy, never, m, c.workspace, c.now);
    DuplicateOrHidden(lazy, never, m, c.workspace, c.login, c.now);
    FlippedDuplicateIsLive(lazy, c.workspace, c.login, c.now);
    FlippedPendingIsLive(lazy, c.workspace, c.now);
    FlipLinks(lazy.invites, never.invites, m, c.workspace, c.now);
    SameKeys(lazy, never, m);
    if id !in lazy.invites {
      NewRowLinks(FlipInvites(lazy.invites, c.workspace, c.now), never.invites, m, id, c);
    }
  }

  lemma NewRowLinks(lazy: Invites, never: Invites, m: Marks, id: InviteId, c: CreateInput)
    requires LinkedRows(lazy, never, m) && id !in lazy
    ensures LinkedRows(lazy[id := NewInvite(c)], never[id := NewInvite(c)], m)
  {
  }

  // ----- accept -----

  predicate Addressed(s: Store, a: AcceptInput) {
    a.inviteId in s.invites && s.invites[a.inviteId].workspace == a.workspace
  }

  lemma SameGuards(lazy: Store, never: Store, a: AcceptInput)
    requires SameShared(lazy, never)
    ensures AcceptFreeGuard(lazy, a.workspace, a.login, a.mode) == AcceptFreeGuard(never, a.workspace, a.login, a.mode)
    ensures AcceptSeatGuard(lazy, a.workspace, a.limit) == AcceptSeatGuard(never, a.workspace, a.limit)
    ensures RoleOf(lazy, a.workspace, a.login) == RoleOf(never, a.workspace, a.login)
  {
  }

  lemma SameRowSameAnswer(lazy: Store, never: Store, a: AcceptInput)
    requires SameShared(lazy, never) && Addressed(lazy, a) && Addressed(never, a)
    requires lazy.invites[a.inviteId] == never.invites[a.inviteId] && !Lapsed(never.invites[a.inviteId], a.now)
    ensures CommitAnswer(lazy, a) == CommitAnswerPure(never, a)
  {
    hide AcceptFreeGuard, AcceptSeatGuard, RoleOf;
    SameGuards(lazy, never, a);
  }

  lemma AdmitLinks(lazy: Store, never: Store, m: Marks, a: AcceptInput)
    requires LinkedStores(lazy, never, m) && Addressed(lazy, a) && Live(lazy.invites[a.inviteId], a.now)
    ensures LinkedStores(AdmitMember(lazy, a), AdmitMember(never, a), m)
  {
    hide AcceptFreeGuard, AcceptSeatGuard, LinkedRows;
    SameKeys(lazy, never, m);
    LiveOrHidden(lazy, never, m, a.inviteId, a.now);
    SameGuards(lazy, never, a);
  }

  lemma ConsumeLinks(lazy: Store, never: Store, m: Marks, a: AcceptInput)
    requires LinkedStores(lazy, never, m) && Addressed(lazy, a) && Live(lazy.invites[a.inviteId], a.now)
    ensures var l, n := ConsumeInvite(lazy, a), ConsumeInvite(never, a);
            && LinkedStores(l, n, m) && Addressed(l, a) && Addressed(n, a)
            && l.invites[a.inviteId] == n.invites[a.inviteId] && !Lapsed(n.invites[a.inviteId], a.now)
  {
    hide RoleOf;
    SameGuards(lazy, never, a);
    LiveOrHidden(lazy, never, m, a.inviteId, a.now);
  }

  /** A row live in both runs is accepted, or refused, alike. */
  lemma LiveAcceptLinks(lazy: Store, never: Store, m: Marks, a: AcceptInput)
    requires LinkedStores(lazy, never, m) && Addressed(lazy, a) && Live(lazy.invites[a.inviteId], a.now)
    ensures LinkedStores(AcceptPure(lazy, a), AcceptPure(never, a), m)
    ensures CommitAnswer(AcceptPure(lazy, a), a) == CommitAnswerPure(AcceptPure(never, a), a)
  {
    hide LinkedRows, AdmitMember, ConsumeInvite, CommitAnswer, CommitAnswerPure;
    AdmitLinks(lazy, never, m, a);
    AdmitKeepsRows(lazy, a);
    ConsumeLinks(AdmitMember(lazy, a), AdmitMember(never, a), m, a);
    SameRowSameAnswer(AcceptPure(lazy, a), AcceptPure(never, a), a);
  }

  lemma AdmitKeepsRows(s: Store, a: AcceptInput)
    ensures AdmitMember(s, a).invites == s.invites
  {
  }

  lemma DeadIsLeft(s: Store, a: AcceptInput)
    requires Addressed(s, a) && !Live(s.invites[a.inviteId], a.now)
    ensures AcceptPure(s, a) == s
  {
  }

  /** A row dead in this run gets the same answer as in the other unless it is live or accepted there. */
  lemma DeadAcceptLinks(lazy: Store, never: Store, m: Marks, a: AcceptInput)
    requires LinkedStores(lazy, never, m) && Addressed(lazy, a) && !lazy.invites[a.inviteId].status.Pending?
    requires !Hidden(lazy, m, a.inviteId, a.now)
    ensures AcceptPure(lazy, a) == lazy && AcceptPure(never, a) == never
    ensures CommitAnswer(lazy, a) == CommitAnswerPure(never, a) <==>
            !(a.inviteId in m.taken && RoleOf(lazy, a.workspace, a.login).None?)
  {
    hide AcceptFreeGuard, AcceptSeatGuard, RoleOf, AdmitMember, ConsumeInvite;
    LiveOrHidden(lazy, never, m, a.inviteId, a.now);
    SameKeys(lazy, never, m);
    DeadIsLeft(lazy, a);
    DeadIsLeft(never, a);
    SameGuards(lazy, never, a);
  }

  /** A hidden row is answered alike only for a member, whose accept consumes it where nothing flips. */
  lemma HiddenAcceptLinks(lazy: Store, never: Store, m: Marks, a: AcceptInput)
    requires LinkedStores(lazy, never, m) && Addressed(lazy, a) && Hidden(lazy, m, a.inviteId, a.now)
    ensures AcceptPure(lazy, a) == lazy
    ensures CommitAnswer(lazy, a) == CommitAnswerPure(AcceptPure(never, a), a) <==>
            RoleOf(lazy, a.workspace, a.login).Some?
    ensures RoleOf(lazy, a.workspace, a.login).Some? ==>
              LinkedStores(lazy, AcceptPure(never, a), m.(taken := m.taken + {a.inviteId}))
  {
    hide AcceptFreeGuard, AcceptSeatGuard;
    DeadIsLeft(lazy, a);
    LiveOrHidden(lazy, never, m, a.inviteId, a.now);
    SameKeys(lazy, never, m);
    SameGuards(lazy, never, a);
    if RoleOf(lazy, a.workspace, a.login).Some? {
      MemberConsumes(never, a);
      TakenLinks(lazy.invites, never.invites, m, a.inviteId, a.now);
    } else {
      GoneOnlyWhenDead(never, a);
    }
  }

  lemma MemberConsumes(s: Store, a: AcceptInput)
    requires Addressed(s, a) && Live(s.invites[a.inviteId], a.now) && RoleOf(s, a.workspace, a.login).Some?
    ensures AcceptPure(s, a) == s.(invites := Consumed(s.invites, a.inviteId, a.now))
  {
  }

  function Consumed(invites: Invites, id: InviteId, now: Time): Invites
    requires id in invites
  {
    invites[id := invites[id].(status := Accepted, acceptedAt := Some(now))]
  }

  lemma TakenLinks(lazy: Invites, never: Invites, m: Marks, id: InviteId, now: Time)
    requires LinkedRows(lazy, never, m) && id in lazy && lazy[id].status.Expired? && id !in m.closed
    ensures LinkedRows(lazy, Consumed(never, id, now), m.(taken := m.taken + {id}))
  {
  }

  /** A live row is never answered as dead, admitted or not. */
  lemma GoneOnlyWhenDead(s: Store, a: AcceptInput)
    requires Addressed(s, a) && Live(s.invites[a.inviteId], a.now)
    ensures !CommitAnswerPure(AcceptPure(s, a), a).Gone?
  {
  }

  lemma AcceptLinks(lazy: Store, never: Store, m: Marks, a: AcceptInput)
    requires LinkedStores(lazy, never, m) && Addressed(lazy, a)
    ensures var r, n := AcceptBatch(lazy, a), AcceptPure(never, a);
            && (CommitAnswer(r, a) == CommitAnswerPure(n, a) <==> !AcceptMisled(lazy, m, a))
            && (!AcceptMisled(lazy, m, a) ==> LinkedStores(r, n, AcceptMarks(lazy, m, a)))
  {
    hide LinkedRows, AcceptPure, CommitAnswer, CommitAnswerPure, RoleOf;
    var flipped := Flip(lazy, a.workspace, a.now);
    FlipLinks(lazy.invites, never.invites, m, a.workspace, a.now);
    FlipSettles(lazy, never, m, a);
    if Live(flipped.invites[a.inviteId], a.now) {
      LiveAcceptLinks(flipped, never, m, a);
    } else if Hidden(flipped, m, a.inviteId, a.now) {
      HiddenAcceptLinks(flipped, never, m, a);
    } else {
      DeadAcceptLinks(flipped, never, m, a);
    }
  }

  lemma FlipSettles(lazy: Store, never: Store, m: Marks, a: AcceptInput)
    requires LinkedStores(lazy, never, m) && Addressed(lazy, a)
    ensures var flipped := Flip(lazy, a.workspace, a.now);
            && AcceptBatch(lazy, a) == AcceptPure(flipped, a) && Addressed(flipped, a)
            && (flipped.invites[a.inviteId].status.Pending? <==> Live(flipped.invites[a.inviteId], a.now))
            && (Live(flipped.invites[a.inviteId], a.now) ==> !Missed(lazy, m, a.inviteId, a.now))
            && (Hidden(flipped, m, a.inviteId, a.now) <==> Hidden(lazy, m, a.inviteId, a.now))
            && RoleOf(flipped, a.workspace, a.login) == RoleOf(lazy, a.workspace, a.login)
  {
    hide AcceptFreeGuard, AcceptSeatGuard, AdmitMember, ConsumeInvite;
  }

  // ----- the other steps -----

  lemma ReadLinks(lazy: Store, never: Store, m: Marks, id: InviteId, login: string, now: Time)
    requires LinkedStores(lazy, never, m)
    ensures var addressed := id in lazy.invites && Fold(lazy.invites[id].login) == Fold(login);
            var a, b := ReadAnswer(lazy, id, login, now), ReadAnswer(never, id, login, now);
            && (Alike(a, b) <==> !(addressed && Missed(lazy, m, id, now)))
            && (a == b <==> !(addressed && (Missed(lazy, m, id, now) || Flipped(lazy, m, id))))
  {
    hide RoleOf;
    if id in lazy.invites {
      SameRole(lazy, never, lazy.invites[id].workspace, login);
    }
  }

  lemma CommitNeverExpires(s: Store, a: AcceptInput)
    ensures !CommitAnswer(s, a).ExpiredNow? && !CommitAnswerPure(s, a).ExpiredNow?
  {
  }

  lemma SameRole(lazy: Store, never: Store, ws: WorkspaceId, login: string)
    requires SameShared(lazy, never)
    ensures RoleOf(lazy, ws, login) == RoleOf(never, ws, login)
  {
  }

  lemma ProceedsIsLive(s: Store, id: InviteId, login: string, now: Time)
    ensures ReadAnswer(s, id, login, now) == Proceeds <==>
            id in s.invites && Fold(s.invites[id].login) == Fold(login) && Live(s.invites[id], now)
  {
  }

  lemma RevokeLinks(lazy: Store, never: Store, m: Marks, ws: WorkspaceId, id: InviteId)
    requires LinkedStores(lazy, never, m)
    ensures var addressed := id in lazy.invites && lazy.invites[id].workspace == ws;
            var r, n := Revoke(lazy, ws, id), Revoke(never, ws, id);
            && LinkedStores(r.0, n.0, if addressed && id !in m.taken then m.(closed := m.closed + {id}) else m)
            && (r.1 == n.1 <==> !(addressed && Flipped(lazy, m, id)))
  {
  }

  /** A step that only touches what the two runs share. */
  predicate Quiet(step: Step) {
    step.ReadForCreate? || step.PlanForAccept? || step.RemoveMember? || step.SetSubscription? || step.SignUp?
    || step.DeleteWorkspace?
  }

  lemma QuietLinks(lazy: Sys, never: Sys, m: Marks, step: Step, mode: DeploymentMode)
    requires lazy.inflight == never.inflight && LinkedStores(lazy.store, never.store, m) && Quiet(step)
    ensures var r, n := Apply(lazy, step, mode), ApplyPure(never, step, mode);
            && r.inflight == n.inflight && LinkedStores(r.store, n.store, m)
            && AnswerOf(lazy, step, mode) == AnswerPure(never, step, mode)
  {
    hide LinkedRows;
  }

  lemma ReadStepLinks(lazy: Sys, never: Sys, m: Marks, step: Step, mode: DeploymentMode)
    requires lazy.inflight == never.inflight && LinkedStores(lazy.store, never.store, m) && step.ReadForAccept?
    ensures Alike(AnswerOf(lazy, step, mode), AnswerPure(never, step, mode)) <==> !Misled(lazy, step, m)
    ensures AnswerOf(lazy, step, mode) == AnswerPure(never, step, mode) <==>
            !Misled(lazy, step, m) && !ReadsFlipped(lazy, step, m)
    ensures !Misled(lazy, step, m) ==>
              var r, n := Apply(lazy, step, mode), ApplyPure(never, step, mode);
              r.inflight == n.inflight && LinkedStores(r.store, n.store, m)
  {
    hide LinkedRows, ReadAnswer, Alike;
    ReadLinks(lazy.store, never.store, m, step.inviteId, step.login, step.now);
    ProceedsIsLive(lazy.store, step.inviteId, step.login, step.now);
    ProceedsIsLive(never.store, step.inviteId, step.login, step.now);
    SameKeys(lazy.store, never.store, m);
    if step.inviteId in lazy.store.invites {
      LiveOrHidden(lazy.store, never.store, m, step.inviteId, step.now);
    }
  }

  lemma CommitLinks(lazy: Sys, never: Sys, m: Marks, step: Step, mode: DeploymentMode)
    requires Linked(lazy, never, m) && (step.CommitCreate? || step.CommitAccept?)
    ensures Alike(AnswerOf(lazy, step, mode), AnswerPure(never, step, mode)) <==> !Misled(lazy, step, m)
    ensures AnswerOf(lazy, step, mode) == AnswerPure(never, step, mode) <==> !Misled(lazy, step, m)
    ensures !Misled(lazy, step, m) ==>
              var r, n := Apply(lazy, step, mode), ApplyPure(never, step, mode);
              r.inflight == n.inflight && LinkedStores(r.store, n.store, NextMarks(lazy, step, m))
  {
    hide LinkedRows, CreateBatch, CreatePure, CreateMisled, AcceptBatch, AcceptPure, AcceptMisled, AcceptMarks,
      CommitAnswer, CommitAnswerPure;
    if step.rid in lazy.inflight {
      var request := lazy.inflight[step.rid];
      if step.CommitCreate? && request.CreateRequest? {
        CreateLinks(lazy.store, never.store, m, step.id, request.input, request.limit);
      } else if step.CommitAccept? && request.AcceptRequest? {
        AcceptLinks(lazy.store, never.store, m, request.accept);
        CommitNeverExpires(AcceptBatch(lazy.store, request.accept), request.accept);
        CommitNeverExpires(AcceptPure(never.store, request.accept), request.accept);
      }
    }
  }

  /** One step: answers part exactly when it is misled, hits or reads a flipped row; only the first parts the runs. */
  lemma StepLinks(lazy: Sys, never: Sys, m: Marks, step: Step, mode: DeploymentMode)
    requires Linked(lazy, never, m)
    ensures Alike(AnswerOf(lazy, step, mode), AnswerPure(never, step, mode)) <==>
            !Misled(lazy, step, m) && !HitsFlipped(lazy, step, m)
    ensures AnswerOf(lazy, step, mode) == AnswerPure(never, step, mode) <==>
            !Misled(lazy, step, m) && !HitsFlipped(lazy, step, m) && !ReadsFlipped(lazy, step, m)
    ensures !Misled(lazy, step, m) ==>
              Linked(Apply(lazy, step, mode), ApplyPure(never, step, mode), NextMarks(lazy, step, m))
  {
    hide LinkedRows, CreateBatch, AcceptBatch, ReadAnswer, Revoke, AcceptsWellAddressed, Flipped, Hidden;
    StepKeepsAddressing(lazy, step, mode);
    match step
    case CommitCreate(_, _) => CommitLinks(lazy, never, m, step, mode);
    case CommitAccept(_) => CommitLinks(lazy, never, m, step, mode);
    case ReadForAccept(_, _, _, _) => ReadStepLinks(lazy, never, m, step, mode);
    case RevokeInvite(ws, id) => RevokeLinks(lazy.store, never.store, m, ws, id);
    case FlipWorkspace(ws, now) => FlipLinks(lazy.store.invites, never.store.invites, m, ws, now);
    case Sweep(now, cap) => SweepLinks(lazy.store.invites, never.store.invites, m, now, cap);
    case _ => QuietLinks(lazy, never, m, step, mode);
  }

  // ----- whole runs -----

  predicate AllAlike(a: seq<Answer>, b: seq<Answer>)
    requires |a| == |b|
  {
    forall i | 0 <= i < |a| :: Alike(a[i], b[i])
  }

  /** Every answer but a revoke's is alike. */
  predicate OthersAlike(steps: seq<Step>, a: seq<Answer>, b: seq<Answer>)
    requires |a| == |b| == |steps|
  {
    forall i | 0 <= i < |steps| && !steps[i].RevokeInvite? :: Alike(a[i], b[i])
  }

  lemma ConsEqual(x: Answer, y: Answer, a: seq<Answer>, b: seq<Answer>)
    requires |a| == |b|
    ensures [x] + a == [y] + b <==> x == y && a == b
    ensures AllAlike([x] + a, [y] + b) <==> Alike(x, y) && AllAlike(a, b)
  {
    hide Alike;
    var u, v := [x] + a, [y] + b;
    assert u[0] == x && v[0] == y && u[1..] == a && v[1..] == b;
    if AllAlike(u, v) {
      forall i | 0 <= i < |a|
        ensures Alike(a[i], b[i])
      {
        assert Alike(u[i + 1], v[i + 1]);
      }
    }
  }

  lemma ConsOthersAlike(steps: seq<Step>, x: Answer, y: Answer, a: seq<Answer>, b: seq<Answer>)
    requires steps != [] && |a| == |b| == |steps| - 1
    ensures OthersAlike(steps, [x] + a, [y] + b) <==>
            (steps[0].RevokeInvite? || Alike(x, y)) && OthersAlike(steps[1..], a, b)
  {
    hide Alike;
    var u, v, rest := [x] + a, [y] + b, steps[1..];
    if OthersAlike(steps, u, v) {
      forall i | 0 <= i < |rest| && !rest[i].RevokeInvite?
        ensures Alike(a[i], b[i])
      {
        assert rest[i] == steps[i + 1] && Alike(u[i + 1], v[i + 1]);
      }
    }
    if (steps[0].RevokeInvite? || Alike(x, y)) && OthersAlike(rest, a, b) {
      forall i | 0 <= i < |steps| && !steps[i].RevokeInvite?
        ensures Alike(u[i], v[i])
      {
        assert i > 0 ==> rest[i - 1] == steps[i] && u[i] == a[i - 1] && v[i] == b[i - 1];
      }
    }
  }

  lemma HitsIsRevoke(sys: Sys, step: Step, m: Marks)
    ensures HitsFlipped(sys, step, m) ==> step.RevokeInvite?
    ensures step.RevokeInvite? ==> !Misled(sys, step, m)
  {
  }

  lemma {:induction false} LinkedAnswers(lazy: Sys, never: Sys, m: Marks, steps: seq<Step>, mode: DeploymentMode)
    requires Linked(lazy, never, m)
    ensures var a, b := Answers(lazy, steps, mode), AnswersPure(never, steps, mode);
            && (OthersAlike(steps, a, b) <==> NoneMisled(lazy, steps, mode, m))
            && (AllAlike(a, b) <==> NoneMisled(lazy, steps, mode, m) && NoneHitsFlipped(lazy, steps, mode, m))
            && (a == b <==> NoneMisled(lazy, steps, mode, m) && NoneHitsFlipped(lazy, steps, mode, m)
                            && NoneReadsFlipped(lazy, steps, mode, m))
    ensures NoneMisled(lazy, steps, mode, m) ==>
              Linked(Run(lazy, steps, mode), RunPure(never, steps, mode), MarksAfter(lazy, steps, mode, m))
    decreases |steps|
  {
    hide Linked, Misled, HitsFlipped, ReadsFlipped, NextMarks, Apply, ApplyPure, AnswerOf, AnswerPure, Alike, AllAlike,
      OthersAlike;
    if steps == [] {
      NothingDiffers();
    } else {
      var step := steps[0];
      var next, pure := Apply(lazy, step, mode), ApplyPure(never, step, mode);
      var x, y := AnswerOf(lazy, step, mode), AnswerPure(never, step, mode);
      var a, b := Answers(next, steps[1..], mode), AnswersPure(pure, steps[1..], mode);
      StepLinks(lazy, never, m, step, mode);
      HitsIsRevoke(lazy, step, m);
      ConsEqual(x, y, a, b);
      ConsOthersAlike(steps, x, y, a, b);
      if !Misled(lazy, step, m) {
        LinkedAnswers(next, pure, NextMarks(lazy, step, m), steps[1..], mode);
      }
    }
  }

  lemma NothingDiffers()
    ensures OthersAlike([], [], []) && AllAlike([], [])
  {
  }

  lemma StartLinks(sys: Sys)
    requires AcceptsWellAddressed(sys)
    ensures Linked(sys, sys, Start(sys.store))
  {
  }

  /**
   * Over every interleaving, clocks in any order: all answers are those of the
   * run that never flips exactly when no read, create or accept is misled by a
   * flipped row its clock calls live, no revoke hits a flipped row, and no
   * accept's first read meets one. The last only tells expired from gone.
   */
  lemma AnswersAgreeExactly(sys: Sys, steps: seq<Step>, mode: DeploymentMode)
    requires AcceptsWellAddressed(sys)
    ensures var a, b, m := Answers(sys, steps, mode), AnswersPure(sys, steps, mode), Start(sys.store);
            && (AllAlike(a, b) <==> NoneMisled(sys, steps, mode, m) && NoneHitsFlipped(sys, steps, mode, m))
            && (a == b <==> NoneMisled(sys, steps, mode, m) && NoneHitsFlipped(sys, steps, mode, m)
                            && NoneReadsFlipped(sys, steps, mode, m))
  {
    StartLinks(sys);
    LinkedAnswers(sys, sys, Start(sys.store), steps, mode);
  }

  /** And all answers but revoke's are alike exactly when nothing is misled: what a revoke is told misleads nobody. */
  lemma OtherAnswersAgreeExactly(sys: Sys, steps: seq<Step>, mode: DeploymentMode)
    requires AcceptsWellAddressed(sys)
    ensures OthersAlike(steps, Answers(sys, steps, mode), AnswersPure(sys, steps, mode)) <==>
            NoneMisled(sys, steps, mode, Start(sys.store))
  {
    StartLinks(sys);
    LinkedAnswers(sys, sys, Start(sys.store), steps, mode);
  }

  /**
   * After a run in which nothing was misled, the two stores have the same
   * members, and a read at any time finds the same live invites and seats
   * exactly when it hides no flipped row of the workspace.
   */
  lemma ReadsAgreeExactly(sys: Sys, steps: seq<Step>, mode: DeploymentMode, ws: WorkspaceId, read: Time)
    requires AcceptsWellAddressed(sys) && NoneMisled(sys, steps, mode, Start(sys.store))
    ensures var lazy, never := Run(sys, steps, mode).store, RunPure(sys, steps, mode).store;
            var hidden := HiddenIds(lazy, MarksAfter(sys, steps, mode, Start(sys.store)), ws, read);
            && lazy.members == never.members && lazy.users == never.users
            && LiveIds(never.invites, ws, read) == LiveIds(lazy.invites, ws, read) + hidden
            && (LiveIds(never.invites, ws, read) == LiveIds(lazy.invites, ws, read) <==> hidden == {})
            && (SeatsCounted(never, ws, read) == SeatsCounted(lazy, ws, read) <==> hidden == {})
            && (forall id | id in LiveIds(lazy.invites, ws, read) :: never.invites[id] == lazy.invites[id])
  {
    hide NoneMisled, Linked, LiveIds, HiddenIds;
    StartLinks(sys);
    LinkedAnswers(sys, sys, Start(sys.store), steps, mode);
    LinkedReads(Run(sys, steps, mode), RunPure(sys, steps, mode), MarksAfter(sys, steps, mode, Start(sys.store)), ws,
      read);
  }

  lemma LinkedReads(lazy: Sys, never: Sys, m: Marks, ws: WorkspaceId, read: Time)
    requires Linked(lazy, never, m)
    ensures var hidden := HiddenIds(lazy.store, m, ws, read);
            && SameShared(lazy.store, never.store)
            && LiveIds(never.store.invites, ws, read) == LiveIds(lazy.store.invites, ws, read) + hidden
            && (LiveIds(never.store.invites, ws, read) == LiveIds(lazy.store.invites, ws, read) <==> hidden == {})
            && (SeatsCounted(never.store, ws, read) == SeatsCounted(lazy.store, ws, read) <==> hidden == {})
            && (forall id | id in LiveIds(lazy.store.invites, ws, read) ::
                  id in never.store.invites && never.store.invites[id] == lazy.store.invites[id])
  {
    hide LinkedRows, Hidden, Live;
    HiddenSeats(lazy.store, never.store, m, ws, read);
    SameKeys(lazy.store, never.store, m);
    forall id | id in LiveIds(lazy.store.invites, ws, read)
      ensures never.store.invites[id] == lazy.store.invites[id]
    {
      LiveOrHidden(lazy.store, never.store, m, id, read);
    }
  }
}
