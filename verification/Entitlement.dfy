/**
 * Workspace plans: which seat limit a workspace resolves to, for one workspace
 * and for a whole membership list read in bounded chunks.
 */
module Entitlement {
  import opened Prelude

  type WorkspaceId = string

  const FREE_PLAN_ID := "free"
  const UNLIMITED_PLAN_ID := "unlimited"
  const PLAN_QUERY_CHUNK := 100

  datatype DeploymentMode = Saas | SelfHosted

  /** `includedMembers` is the seat cap; None is no cap at all, never zero. */
  datatype PlanLimits = PlanLimits(id: string, name: string, includedMembers: Option<nat>)

  datatype PlanRow = PlanRow(name: string, includedMembers: Option<nat>)
  datatype Subscription = Subscription(planId: string, active: bool)
  datatype Billing = Billing(subscriptions: map<WorkspaceId, Subscription>, plans: map<string, PlanRow>)

  const UNLIMITED_LIMITS := PlanLimits(UNLIMITED_PLAN_ID, "Unlimited", None)

  /** The plan an active subscription row names, when the catalogue knows it. */
  function SubscribedPlan(b: Billing, ws: WorkspaceId): Option<PlanLimits> {
    if ws in b.subscriptions && b.subscriptions[ws].active && b.subscriptions[ws].planId in b.plans then
      var id := b.subscriptions[ws].planId;
      Some(PlanLimits(id, b.plans[id].name, b.plans[id].includedMembers))
    else None
  }

  function FreePlan(b: Billing): Option<PlanLimits> {
    if FREE_PLAN_ID in b.plans
    then Some(PlanLimits(FREE_PLAN_ID, b.plans[FREE_PLAN_ID].name, b.plans[FREE_PLAN_ID].includedMembers))
    else None
  }

  /** The pointwise rule; None stands for the error a missing `free` row raises. */
  function ResolvePlan(b: Billing, ws: WorkspaceId, mode: DeploymentMode): Option<PlanLimits> {
    if mode.SelfHosted? then Some(UNLIMITED_LIMITS)
    else if SubscribedPlan(b, ws).Some? then SubscribedPlan(b, ws)
    else FreePlan(b)
  }

  /** A workspace whose active subscription names a plan other than `free`. */
  predicate IsPaid(b: Billing, ws: WorkspaceId) {
    ws in b.subscriptions && b.subscriptions[ws].active && b.subscriptions[ws].planId != FREE_PLAN_ID
  }

  function Min(a: nat, b: nat): nat { if a < b then a else b }

  /** One subscription read: the rows the join returns for one chunk of ids. A statement binds at most 100. */
  function ChunkRows(b: Billing, chunk: seq<WorkspaceId>): map<WorkspaceId, PlanLimits>
    requires |chunk| <= 100
  {
    map ws | ws in chunk && SubscribedPlan(b, ws).Some? :: SubscribedPlan(b, ws).value
  }

  /** The subscription reads, one per chunk, find exactly the subscribed ids. */
  method ReadSubscribed(b: Billing, ids: seq<WorkspaceId>) returns (resolved: map<WorkspaceId, PlanLimits>)
    ensures forall ws :: ws in resolved <==> ws in ids && SubscribedPlan(b, ws).Some?
    ensures forall ws | ws in resolved :: resolved[ws] == SubscribedPlan(b, ws).value
  {
    resolved := map[];
    var at := 0;
    while at < |ids|
      invariant 0 <= at
      invariant forall ws :: ws in resolved <==> ws in ids[..Min(at, |ids|)] && SubscribedPlan(b, ws).Some?
      invariant forall ws | ws in resolved :: resolved[ws] == SubscribedPlan(b, ws).value
    {
      var chunk := ids[at..Min(at + PLAN_QUERY_CHUNK, |ids|)];
      assert ids[..Min(at + PLAN_QUERY_CHUNK, |ids|)] == ids[..at] + chunk;
      resolved := resolved + ChunkRows(b, chunk);
      at := at + PLAN_QUERY_CHUNK;
    }
    assert ids[..Min(at, |ids|)] == ids;
  }

  /**
   * The chunked list read agrees with the pointwise rule on every id, loses no
   * id, and fails exactly when some id has no plan to resolve to.
   */
  method ResolveWorkspacePlans(b: Billing, ids: seq<WorkspaceId>, mode: DeploymentMode)
    returns (r: Option<map<WorkspaceId, PlanLimits>>)
    ensures r.Some? <==> forall ws | ws in ids :: ResolvePlan(b, ws, mode).Some?
    ensures r.Some? ==> r.value.Keys == (set ws | ws in ids)
    ensures r.Some? ==> forall ws | ws in ids :: Some(r.value[ws]) == ResolvePlan(b, ws, mode)
  {
    var resolved: map<WorkspaceId, PlanLimits> := map[];
    if |ids| == 0 {
      return Some(resolved);
    }
    if mode.SelfHosted? {
      for i := 0 to |ids|
        invariant resolved.Keys == (set ws | ws in ids[..i])
        invariant forall ws | ws in resolved :: resolved[ws] == UNLIMITED_LIMITS
      {
        resolved := resolved[ids[i] := UNLIMITED_LIMITS];
      }
      assert ids[..|ids|] == ids;
      return Some(resolved);
    }

    resolved := ReadSubscribed(b, ids);
    var free: Option<PlanLimits> := None;
    for i := 0 to |ids|
      invariant free.Some? ==> free == FreePlan(b)
      invariant forall ws :: ws in resolved <==> ws in ids && (SubscribedPlan(b, ws).Some? || ws in ids[..i])
      invariant forall ws | ws in resolved :: Some(resolved[ws]) == ResolvePlan(b, ws, mode)
    {
      if ids[i] !in resolved {
        if free.None? {
          free := FreePlan(b);
        }
        if free.None? {
          assert ResolvePlan(b, ids[i], mode).None?;
          return None;
        }
        resolved := resolved[ids[i] := free.value];
      }
    }
    return Some(resolved);
  }
}
