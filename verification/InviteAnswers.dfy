/** What the callers of a run are told, beside the run in which expiry is nothing but the read predicate. */
module InviteAnswers {
  import opened Prelude
  import opened Collation
  import opened Entitlement
  import opened InviteModel
  import opened InviteRuns
  import opened InviteOutcomes

  datatype Answer =
    | Silent
    | Proceeds
    | CreateAnswer(create: CreateOutcome)
    | AcceptAnswered(accept: AcceptOutcome)
    | RevokeAnswer(changed: bool)

  /** An accept's first read. */
  function ReadAnswer(s: Store, id: InviteId, login: string, now: Time): Answer {
    if id !in s.invites || Fold(s.invites[id].login) != Fold(login) then AcceptAnswered(NotFound)
    else
      var i := s.invites[id];
      if i.status in {Revoked, Expired} then AcceptAnswered(Gone)
      else if i.status.Accepted? then
        var role := RoleOf(s, i.workspace, login);
        AcceptAnswered(if role.None? then NotFound else Admitted(i.workspace, role.value))
      else if i.expiresAt <= now then AcceptAnswered(ExpiredNow)
      else Proceeds
  }

  /** Unless it proceeds, the read answers what the whole accept would. */
  lemma ReadAnswersAccept(s: Store, id: InviteId, login: string, now: Time, mode: DeploymentMode)
    ensures var told := ReadAnswer(s, id, login, now);
            told.AcceptAnswered? ==> Accept(s, id, login, now, mode).1 == told.accept
  {
  }

  /** The invite is dead: refused as expired while no flip has reached it, as gone from then on. */
  predicate Dead(a: Answer) { a.AcceptAnswered? && a.accept in {Gone, ExpiredNow} }

  /** The same answer, up to which of the two a dead invite gets. */
  predicate Alike(a: Answer, b: Answer) { a == b || (Dead(a) && Dead(b)) }

  function PlanAnswer(s: Store, ws: WorkspaceId, mode: DeploymentMode, refusal: Answer): Answer {
    if ResolvePlan(s.billing, ws, mode).None? then refusal else Proceeds
  }

  /** What the re-read right after an accept's batch answers. */
  function CommitAnswer(after: Store, a: AcceptInput): AcceptOutcome {
    AcceptAnswer(after, a, if a.inviteId in after.invites then Classify(after, a) else FreeSlotBlocks)
  }

  function AnswerOf(sys: Sys, step: Step, mode: DeploymentMode): Answer {
    var s := sys.store;
    match step
    case ReadForCreate(_, c) => PlanAnswer(s, c.workspace, mode, CreateAnswer(NoPlan))
    case CommitCreate(rid, id) =>
      if rid in sys.inflight && sys.inflight[rid].CreateRequest?
      then CreateAnswer(CreateBatch(s, id, sys.inflight[rid].input, sys.inflight[rid].limit).1) else Silent
    case ReadForAccept(_, id, login, now) => ReadAnswer(s, id, login, now)
    case PlanForAccept(rid) =>
      if rid in sys.inflight && sys.inflight[rid].AcceptSeen?
      then PlanAnswer(s, sys.inflight[rid].accept.workspace, mode, AcceptAnswered(NoPlanForAccept)) else Silent
    case CommitAccept(rid) =>
      if rid in sys.inflight && sys.inflight[rid].AcceptRequest?
      then var a := sys.inflight[rid].accept; AcceptAnswered(CommitAnswer(AcceptBatch(s, a), a)) else Silent
    case RevokeInvite(ws, id) => RevokeAnswer(Revoke(s, ws, id).1)
    case _ => Silent
  }

  /** The answers of a run, step by step. */
  ghost function Answers(sys: Sys, steps: seq<Step>, mode: DeploymentMode): (r: seq<Answer>)
    ensures |r| == |steps|
    decreases |steps|
  {
    if steps == [] then []
    else [AnswerOf(sys, steps[0], mode)] + Answers(Apply(sys, steps[0], mode), steps[1..], mode)
  }

  // ----- the run that never flips -----

  /** The guarded insert where a lapsed row is no duplicate and takes no seat, flipped or not. */
  function CreatePure(s: Store, id: InviteId, c: CreateInput, limit: Option<nat>): (Store, CreateOutcome) {
    if !SeatGuard(s, c.workspace, c.now, limit) then (s, SeatCapRefusal(limit.value))
    else if id in s.invites || LiveDuplicate(s, c.workspace, c.login, c.now) then (s, PendingExistsRefusal)
    else (s.(invites := s.invites[id := NewInvite(c)]), Created(id))
  }

  function AcceptPure(s: Store, a: AcceptInput): Store { ConsumeInvite(AdmitMember(s, a), a) }

  /** The re-read where a lapsed row reads as dead. */
  function CommitAnswerPure(after: Store, a: AcceptInput): AcceptOutcome {
    if RoleOf(after, a.workspace, a.login).None? && a.inviteId in after.invites
      && Lapsed(after.invites[a.inviteId], a.now)
    then Gone else CommitAnswer(after, a)
  }

  ghost function ApplyPure(sys: Sys, step: Step, mode: DeploymentMode): Sys {
    match step
    case CommitCreate(rid, id) =>
      if rid in sys.inflight && sys.inflight[rid].CreateRequest?
      then Sys(CreatePure(sys.store, id, sys.inflight[rid].input, sys.inflight[rid].limit).0, sys.inflight - {rid})
      else sys
    case CommitAccept(rid) =>
      if rid in sys.inflight && sys.inflight[rid].AcceptRequest?
      then Sys(AcceptPure(sys.store, sys.inflight[rid].accept), sys.inflight - {rid})
      else sys
    case FlipWorkspace(_, _) => sys
    case Sweep(_, _) => sys
    case _ => Apply(sys, step, mode)
  }

  function AnswerPure(sys: Sys, step: Step, mode: DeploymentMode): Answer {
    match step
    case CommitCreate(rid, id) =>
      if rid in sys.inflight && sys.inflight[rid].CreateRequest?
      then CreateAnswer(CreatePure(sys.store, id, sys.inflight[rid].input, sys.inflight[rid].limit).1) else Silent
    case CommitAccept(rid) =>
      if rid in sys.inflight && sys.inflight[rid].AcceptRequest?
      then var a := sys.inflight[rid].accept; AcceptAnswered(CommitAnswerPure(AcceptPure(sys.store, a), a)) else Silent
    case _ => AnswerOf(sys, step, mode)
  }

  ghost function AnswersPure(sys: Sys, steps: seq<Step>, mode: DeploymentMode): (r: seq<Answer>)
    ensures |r| == |steps|
    decreases |steps|
  {
    if steps == [] then []
    else [AnswerPure(sys, steps[0], mode)] + AnswersPure(ApplyPure(sys, steps[0], mode), steps[1..], mode)
  }

  ghost function RunPure(sys: Sys, steps: seq<Step>, mode: DeploymentMode): Sys
    decreases |steps|
  {
    if steps == [] then sys else RunPure(ApplyPure(sys, steps[0], mode), steps[1..], mode)
  }
}
