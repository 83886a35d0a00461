/** Flag and slug writes, each one atomic batch with its audit row, and the ledger they leave behind. */
module Ledger {
  import opened Prelude
  import opened Collation

  datatype Workspace = Workspace(slug: string, deleted: bool)

  datatype Event =
    | FlagSet(actor: string, key: string, wasOn: bool, isOn: bool)
    | SlugSet(actor: string, id: string, before: string, after: string)

  datatype Store = Store(flags: map<string, bool>, workspaces: map<string, Workspace>, ledger: seq<Event>)

  const SERVER_FLAG_KEYS := {"review_global", "signup_open", "workspace_creation_open"}

  /** An absent row reads enabled. */
  function Effective(flags: map<string, bool>, key: string): bool { if key in flags then flags[key] else true }

  predicate SlugTaken(ws: map<string, Workspace>, id: string, slug: string) {
    exists other :: other in ws && other != id && Fold(ws[other].slug) == Fold(slug)
  }

  predicate IdTaken(ws: map<string, Workspace>, id: string, slug: string) { slug in ws && slug != id }

  predicate CanRename(ws: map<string, Workspace>, id: string, slug: string) {
    id in ws && !ws[id].deleted && !SlugTaken(ws, id, slug) && !IdTaken(ws, id, slug)
  }

  // ----- one write -----

  datatype Write =
    | Flag(actor: string, key: string, enabled: bool)
    | Slug(actor: string, id: string, slug: string)
    | Remove(id: string)                              // soft delete, by other code

  function Apply(s: Store, w: Write): Store {
    match w
    case Flag(actor, key, enabled) =>
      Store(s.flags[key := enabled], s.workspaces, s.ledger + [FlagSet(actor, key, Effective(s.flags, key), enabled)])
    case Slug(actor, id, slug) =>
      if CanRename(s.workspaces, id, slug) then
        var renamed := s.workspaces[id := s.workspaces[id].(slug := slug)];
        Store(s.flags, renamed, s.ledger + [SlugSet(actor, id, s.workspaces[id].slug, slug)])
      else s
    case Remove(id) =>
      if id in s.workspaces then s.(workspaces := s.workspaces[id := s.workspaces[id].(deleted := true)]) else s
  }

  function Run(s: Store, writes: seq<Write>): Store {
    if writes == [] then s else Apply(Run(s, writes[..|writes| - 1]), writes[|writes| - 1])
  }

  // ----- reading the ledger back -----

  /** What the ledger speaks about: the flag rows and each workspace's slug. */
  datatype View = View(flags: map<string, bool>, slugs: map<string, string>)

  function ViewOf(s: Store): View { View(s.flags, map id | id in s.workspaces :: s.workspaces[id].slug) }

  function ReplayOne(v: View, e: Event): View {
    match e
    case FlagSet(_, key, _, isOn) => v.(flags := v.flags[key := isOn])
    case SlugSet(_, id, _, after) => v.(slugs := v.slugs[id := after])
  }

  function Replay(v: View, events: seq<Event>): View {
    if events == [] then v else ReplayOne(Replay(v, events[..|events| - 1]), events[|events| - 1])
  }

  /** The event's `before` is what the view held. */
  predicate BeforeIs(v: View, e: Event) {
    match e
    case FlagSet(_, key, wasOn, _) => wasOn == Effective(v.flags, key)
    case SlugSet(_, id, before, _) => id in v.slugs && before == v.slugs[id]
  }

  lemma ApplyLogs(s: Store, w: Write)
    ensures s.ledger <= Apply(s, w).ledger
    ensures var added := Apply(s, w).ledger[|s.ledger|..];
            && |added| <= 1 && ViewOf(Apply(s, w)) == Replay(ViewOf(s), added)
            && (added != [] ==> BeforeIs(ViewOf(s), added[0]))
  {
  }

  /** The stored row a write is about, and whether it goes through. */
  predicate GoesThrough(s: Store, w: Write) { w.Flag? || (w.Slug? && CanRename(s.workspaces, w.id, w.slug)) }

  /**
   * A write that goes through appends one row: it names what was asked, its
   * `before` is the old stored value and its `after` the new one. Any other
   * write appends none and leaves every flag and slug as it was.
   */
  lemma AppendsExactly(s: Store, w: Write)
    ensures var after := Apply(s, w);
            if GoesThrough(s, w) then
              && |after.ledger| == |s.ledger| + 1 && after.ledger[..|s.ledger|] == s.ledger
              && var row := after.ledger[|s.ledger|];
                 && BeforeIs(ViewOf(s), row)
                 && (w.Flag? ==>
                       && row == FlagSet(w.actor, w.key, row.wasOn, w.enabled)
                       && w.key in after.flags && after.flags[w.key] == w.enabled)
                 && (w.Slug? ==>
                       && row == SlugSet(w.actor, w.id, row.before, w.slug)
                       && w.id in after.workspaces && after.workspaces[w.id].slug == w.slug)
            else after.ledger == s.ledger && ViewOf(after) == ViewOf(s) && (w.Slug? ==> after == s)
    ensures forall key | key in s.flags && !(w.Flag? && w.key == key) ::
              key in Apply(s, w).flags && Apply(s, w).flags[key] == s.flags[key]
    ensures forall id | id in s.workspaces && !(w.Slug? && w.id == id) ::
              id in Apply(s, w).workspaces && Apply(s, w).workspaces[id].slug == s.workspaces[id].slug
  {
    if w.Remove? {
      assert ViewOf(Apply(s, w)).slugs == ViewOf(s).slugs;
    }
  }

  /** An absent flag counts as on: its first write says so, whatever it sets. */
  lemma FlagRow(s: Store, actor: string, key: string, enabled: bool)
    ensures var after := Apply(s, Flag(actor, key, enabled));
            && after.flags == s.flags[key := enabled] && after.workspaces == s.workspaces
            && after.ledger == s.ledger + [FlagSet(actor, key, key !in s.flags || s.flags[key], enabled)]
  {
  }

  /** A rename goes through exactly for a live workspace whose new slug no other one has, ignoring case, or has as its
      id; a removal marks its workspace and nothing else. */
  lemma SlugRow(s: Store, actor: string, id: string, slug: string)
    ensures var after := Apply(s, Slug(actor, id, slug));
            var free := id in s.workspaces && !s.workspaces[id].deleted
                        && forall other | other in s.workspaces && other != id ::
                             other != slug && Fold(s.workspaces[other].slug) != Fold(slug);
            after ==
              if !free then s
              else Store(s.flags, s.workspaces[id := Workspace(slug, false)],
                         s.ledger + [SlugSet(actor, id, s.workspaces[id].slug, slug)])
    ensures Apply(s, Remove(id)) ==
            if id in s.workspaces then s.(workspaces := s.workspaces[id := Workspace(s.workspaces[id].slug, true)])
            else s
  {
  }

  lemma {:induction false} ReplayConcat(v: View, a: seq<Event>, b: seq<Event>)
    ensures Replay(v, a + b) == Replay(Replay(v, a), b)
  {
    if b == [] {
      assert a + b == a;
    } else {
      assert (a + b)[..|a + b| - 1] == a + b[..|b| - 1];
      ReplayConcat(v, a, b[..|b| - 1]);
    }
  }

  /** Over any interleaving, replaying the new ledger rows on the initial rows gives the current ones. */
  lemma {:induction false} LedgerReplays(s: Store, writes: seq<Write>)
    ensures s.ledger <= Run(s, writes).ledger
    ensures ViewOf(Run(s, writes)) == Replay(ViewOf(s), Run(s, writes).ledger[|s.ledger|..])
  {
    if writes == [] {
      assert s.ledger[|s.ledger|..] == [];
    } else {
      var mid := Run(s, writes[..|writes| - 1]);
      var last := writes[|writes| - 1];
      LedgerReplays(s, writes[..|writes| - 1]);
      ApplyLogs(mid, last);
      var tail := Apply(mid, last).ledger;
      assert tail[|s.ledger|..] == mid.ledger[|s.ledger|..] + tail[|mid.ledger|..];
      ReplayConcat(ViewOf(s), mid.ledger[|s.ledger|..], tail[|mid.ledger|..]);
    }
  }

  /** Over any interleaving, each new row's `before` is what replaying the rows before it gives. */
  lemma {:induction false} LedgerChains(s: Store, writes: seq<Write>, i: nat)
    requires |s.ledger| <= i < |Run(s, writes).ledger|
    ensures BeforeIs(Replay(ViewOf(s), Run(s, writes).ledger[|s.ledger|..i]), Run(s, writes).ledger[i])
  {
    if writes != [] {
      var mid := Run(s, writes[..|writes| - 1]);
      var last := writes[|writes| - 1];
      LedgerReplays(s, writes[..|writes| - 1]);
      ApplyLogs(mid, last);
      var tail := Apply(mid, last).ledger;
      if i < |mid.ledger| {
        LedgerChains(s, writes[..|writes| - 1], i);
        assert tail[..|mid.ledger|] == mid.ledger;
        assert tail[|s.ledger|..i] == mid.ledger[|s.ledger|..i];
      } else {
        assert i == |mid.ledger| && tail[|mid.ledger|..][0] == tail[i];
        assert tail[|s.ledger|..i] == mid.ledger[|s.ledger|..];
      }
    }
  }

  predicate SameTarget(a: Event, b: Event) {
    match a
    case FlagSet(_, key, _, _) => b.FlagSet? && b.key == key
    case SlugSet(_, id, _, _) => b.SlugSet? && b.id == id
  }

  lemma {:induction false} ReplayKeepsLast(v: View, events: seq<Event>, j: nat, e: Event)
    requires j < |events| && SameTarget(events[j], e) && BeforeIs(Replay(v, events), e)
    requires forall k | j < k < |events| :: !SameTarget(events[k], e)
    ensures if e.FlagSet? then e.wasOn == events[j].isOn else e.before == events[j].after
  {
    var front, last := events[..|events| - 1], events[|events| - 1];
    if j < |front| {
      assert !SameTarget(last, e);
      ReplayKeepsLast(v, front, j, e);
    }
  }

  /** Hence a row's `before` is the `after` of the previous row about the same target. */
  lemma BeforeIsPreviousAfter(s: Store, writes: seq<Write>, j: nat, i: nat)
    requires |s.ledger| <= j < i < |Run(s, writes).ledger|
    requires SameTarget(Run(s, writes).ledger[j], Run(s, writes).ledger[i])
    requires forall k | j < k < i :: !SameTarget(Run(s, writes).ledger[k], Run(s, writes).ledger[i])
    ensures var a, b := Run(s, writes).ledger[j], Run(s, writes).ledger[i];
            if b.FlagSet? then b.wasOn == a.isOn else b.before == a.after
  {
    LedgerChains(s, writes, i);
    var events := Run(s, writes).ledger[|s.ledger|..i];
    ReplayKeepsLast(ViewOf(s), events, j - |s.ledger|, Run(s, writes).ledger[i]);
  }

  // ----- slugs -----

  /** Slugs are distinct ignoring case, and no slug is another workspace's id. */
  predicate SlugsApart(ws: map<string, Workspace>) {
    forall a, b | a in ws && b in ws && a != b :: Fold(ws[a].slug) != Fold(ws[b].slug) && ws[a].slug != b
  }

  lemma ApplyKeepsSlugs(s: Store, w: Write)
    requires SlugsApart(s.workspaces)
    ensures SlugsApart(Apply(s, w).workspaces)
  {
  }

  lemma {:induction false} RunKeepsSlugs(s: Store, writes: seq<Write>)
    requires SlugsApart(s.workspaces)
    ensures SlugsApart(Run(s, writes).workspaces)
  {
    if writes != [] {
      RunKeepsSlugs(s, writes[..|writes| - 1]);
      ApplyKeepsSlugs(Run(s, writes[..|writes| - 1]), writes[|writes| - 1]);
    }
  }

  /** So a reference, an id or a slug, never means two workspaces, whatever writes were made. */
  lemma ReferenceIsUnambiguous(s: Store, writes: seq<Write>, ref: string, a: string, b: string)
    requires SlugsApart(s.workspaces)
    requires var ws := Run(s, writes).workspaces;
             a in ws && b in ws && (a == ref || ws[a].slug == ref) && (b == ref || ws[b].slug == ref)
    ensures a == b
  {
    RunKeepsSlugs(s, writes);
  }

  /** Such a store is one in which no two workspaces have one slug, ignoring case, and no slug is another's id. */
  lemma SlugsApartMeans(ws: map<string, Workspace>)
    ensures SlugsApart(ws) <==>
            && (forall a, b | a in ws && b in ws && Fold(ws[a].slug) == Fold(ws[b].slug) :: a == b)
            && (forall a | a in ws && ws[a].slug in ws :: ws[a].slug == a)
  {
  }

  // ----- the writers -----

  datatype FlagResponse = NotFound | BadRequest | FlagDone(key: string, enabled: bool)
  datatype SlugOutcome = SlugOk(slug: string) | SlugConflict | SlugIsWorkspaceId | UnknownWorkspace

  class Database {
    var flags: map<string, bool>
    var workspaces: map<string, Workspace>
    var ledger: seq<Event>

    function Value(): Store
      reads this
    {
      Store(flags, workspaces, ledger)
    }

    constructor (s: Store)
      ensures Value() == s
    {
      flags, workspaces, ledger := s.flags, s.workspaces, s.ledger;
    }

    /** The audit row is inserted first, so its `before` reads the row not yet updated. */
    method SetFlag(login: Option<string>, key: Option<string>, enabled: Option<bool>) returns (r: FlagResponse)
      modifies this
      ensures r.NotFound? <==> login.None?
      ensures r.FlagDone? <==>
                && login.Some? && key.Some? && enabled.Some?
                && key.value in {"review_global", "signup_open", "workspace_creation_open"}
      ensures r.FlagDone? ==> r == FlagDone(key.value, enabled.value)
      ensures r.FlagDone? ==> Value() == Apply(old(Value()), Flag(login.value, r.key, r.enabled))
      ensures !r.FlagDone? ==> Value() == old(Value())
    {
      if login.None? {
        return NotFound;
      }
      if key.None? || key.value !in SERVER_FLAG_KEYS || enabled.None? {
        return BadRequest;
      }
      var before := if key.value in flags then flags[key.value] else true;
      ledger := ledger + [FlagSet(login.value, key.value, before, enabled.value)];
      flags := flags[key.value := enabled.value];
      return FlagDone(key.value, enabled.value);
    }

    /** The guarded audit insert and the guarded update, one transaction. */
    method CommitSlug(actor: string, id: string, slug: string) returns (changed: bool)
      modifies this
      ensures Value() == Apply(old(Value()), Slug(actor, id, slug))
      ensures changed <==> old(CanRename(workspaces, id, slug))
    {
      if CanRename(workspaces, id, slug) {
        ledger := ledger + [SlugSet(actor, id, workspaces[id].slug, slug)];
      }
      changed := CanRename(workspaces, id, slug);
      if changed {
        workspaces := workspaces[id := workspaces[id].(slug := slug)];
      }
    }

    /** With nothing between the batch and the re-read, the refusal names the first guard that matched. */
    method SetWorkspaceSlug(actor: string, id: string, slug: string) returns (r: SlugOutcome)
      modifies this
      ensures Value() == Apply(old(Value()), Slug(actor, id, slug))
      ensures r.SlugOk? <==> old(CanRename(workspaces, id, slug))
      ensures r.SlugOk? ==> r.slug == slug && id in workspaces && workspaces[id].slug == slug
      ensures r.SlugConflict? <==> old(SlugTaken(workspaces, id, slug))
      ensures r.SlugIsWorkspaceId? <==> old(!SlugTaken(workspaces, id, slug) && IdTaken(workspaces, id, slug))
    {
      var changed := CommitSlug(actor, id, slug);
      if changed {
        return SlugOk(slug);
      }
      if SlugTaken(workspaces, id, slug) {
        return SlugConflict;
      }
      if IdTaken(workspaces, id, slug) {
        return SlugIsWorkspaceId;
      }
      return UnknownWorkspace;
    }
  }
}
