/** The bounded wait for a deploy run, and the section it ends in. Sections keep their facts, not their prose. */
module Evidence {
  import opened Prelude
  import Text

  datatype Run = Run(id: int, completed: bool, conclusion: Option<string>, branch: string)

  /** The two artifact files, or the reason the download failed. */
  type Artifact = Result<(string, string), string>

  datatype Options = Options(ref: Option<string>, sinceRun: Option<int>, waitMs: nat, intervalMs: nat)

  datatype Cited = Cited(run: Run, refFallback: bool)

  datatype Outcome =
    | Success(version: string, digest: string, cited: Cited)
    | DeployFailed(cited: Cited)
    | Pending(cited: Cited)
    | NoRun(boundary: Option<int>)
    | Degraded(seen: Option<Cited>)

  function CitedBy(r: Outcome): Option<Cited> {
    match r
    case Success(_, _, c) => Some(c)
    case DeployFailed(c) => Some(c)
    case Pending(c) => Some(c)
    case NoRun(_) => None
    case Degraded(seen) => seen
  }

  /** An empty ref counts as none. */
  predicate HasRef(o: Options) { o.ref.Some? && o.ref.value != "" }

  // ----- run selection -----

  function Above(runs: seq<Run>, boundary: int): seq<Run> {
    if runs == [] then [] else (if runs[0].id > boundary then [runs[0]] else []) + Above(runs[1..], boundary)
  }

  function FirstOn(runs: seq<Run>, ref: string): Option<Run> {
    if runs == [] then None else if runs[0].branch == ref then Some(runs[0]) else FirstOn(runs[1..], ref)
  }

  function PickRun(runs: seq<Run>, o: Options): Option<Cited> {
    var selectable := if o.sinceRun.Some? then Above(runs, o.sinceRun.value) else runs;
    if selectable == [] then None
    else if HasRef(o) then
      var matching := FirstOn(selectable, o.ref.value);
      if matching.Some? then Some(Cited(matching.value, false))
      else if o.sinceRun.Some? then None
      else Some(Cited(selectable[0], true))
    else Some(Cited(selectable[0], false))
  }

  /** A run the section may cite. */
  predicate Citable(r: Run, o: Options) {
    && (o.sinceRun.Some? ==> r.id > o.sinceRun.value)
    && (o.sinceRun.Some? && HasRef(o) ==> r.branch == o.ref.value)
  }

  predicate OnRef(r: Run, o: Options) { HasRef(o) && r.branch == o.ref.value }

  lemma {:induction false} AboveKeeps(runs: seq<Run>, boundary: int, r: Run)
    ensures r in Above(runs, boundary) <==> r in runs && r.id > boundary
  {
    if runs != [] {
      AboveKeeps(runs[1..], boundary, r);
      assert runs == [runs[0]] + runs[1..];
    }
  }

  lemma {:induction false} FirstOnFinds(runs: seq<Run>, ref: string)
    ensures var f := FirstOn(runs, ref);
            if f.Some? then f.value in runs && f.value.branch == ref else forall r | r in runs :: r.branch != ref
  {
    if runs != [] {
      FirstOnFinds(runs[1..], ref);
      assert runs == [runs[0]] + runs[1..];
    }
  }

  /** A run is picked exactly when one may be cited; it is one of them, on the wanted ref if any is,
      and the fallback is disclosed exactly when it is not on that ref. */
  lemma PickExactly(runs: seq<Run>, o: Options)
    ensures PickRun(runs, o).Some? <==> exists r :: r in runs && Citable(r, o)
    ensures PickRun(runs, o).Some? ==>
              var c := PickRun(runs, o).value;
              && c.run in runs && Citable(c.run, o) && (c.refFallback <==> HasRef(o) && !OnRef(c.run, o))
              && ((exists r :: r in runs && Citable(r, o) && OnRef(r, o)) ==> OnRef(c.run, o) || !HasRef(o))
  {
    var selectable := if o.sinceRun.Some? then Above(runs, o.sinceRun.value) else runs;
    if o.sinceRun.Some? {
      forall r: Run
        ensures r in selectable <==> r in runs && r.id > o.sinceRun.value
      {
        AboveKeeps(runs, o.sinceRun.value, r);
      }
    }
    if HasRef(o) {
      FirstOnFinds(selectable, o.ref.value);
    }
    if selectable != [] {
      assert selectable[0] in selectable;
    }
  }

  /** A newer run takes over when it is on the wanted ref and above the boundary; at or below the boundary it
      changes nothing. */
  lemma NewerRun(runs: seq<Run>, o: Options, newer: Run)
    ensures Citable(newer, o) && (HasRef(o) ==> OnRef(newer, o)) ==>
            PickRun([newer] + runs, o) == Some(Cited(newer, false))
    ensures o.sinceRun.Some? && newer.id <= o.sinceRun.value ==> PickRun([newer] + runs, o) == PickRun(runs, o)
    ensures PickRun(runs, o).Some? && OnRef(PickRun(runs, o).value.run, o) && !OnRef(newer, o) ==>
            PickRun([newer] + runs, o) == PickRun(runs, o)
  {
    assert ([newer] + runs)[1..] == runs;
    if o.sinceRun.Some? {
      var rest := Above(runs, o.sinceRun.value);
      assert Above([newer] + runs, o.sinceRun.value) == (if newer.id > o.sinceRun.value then [newer] else []) + rest;
      assert ([newer] + rest)[1..] == rest && [] + rest == rest;
    }
  }

  /** A run above the boundary, on the ref if one is asked for. */
  predicate Wanted(r: Run, boundary: Option<int>, ref: Option<string>) {
    (boundary.Some? ==> r.id > boundary.value) && (ref.Some? ==> r.branch == ref.value)
  }

  lemma {:induction false} FirstWanted(runs: seq<Run>, boundary: Option<int>, ref: Option<string>, i: nat)
    requires i < |runs| && Wanted(runs[i], boundary, ref)
    requires forall j | 0 <= j < i :: !Wanted(runs[j], boundary, ref)
    ensures var selectable := if boundary.Some? then Above(runs, boundary.value) else runs;
            selectable != [] && if ref.Some? then FirstOn(selectable, ref.value) == Some(runs[i])
              else selectable[0] == runs[i]
  {
    if i > 0 {
      assert !Wanted(runs[0], boundary, ref);
      FirstWanted(runs[1..], boundary, ref, i - 1);
      if boundary.Some? {
        assert [] + Above(runs[1..], boundary.value) == Above(runs[1..], boundary.value);
      }
    }
  }

  /** Runs are listed newest first: the first wanted one is picked, where an empty ref asks for none. */
  lemma NewestIsPicked(runs: seq<Run>, o: Options, i: nat)
    requires var ref := if o.ref == Some("") then None else o.ref;
             && i < |runs| && Wanted(runs[i], o.sinceRun, ref)
             && forall j | 0 <= j < i :: !Wanted(runs[j], o.sinceRun, ref)
    ensures PickRun(runs, o) == Some(Cited(runs[i], false))
  {
    FirstWanted(runs, o.sinceRun, if o.ref == Some("") then None else o.ref, i);
  }

  /** With no run on the ref, the newest of all stands in and says so; above a boundary nothing does. */
  lemma FallbackIsNewest(runs: seq<Run>, o: Options)
    requires runs != [] && forall r | r in runs :: !Wanted(r, o.sinceRun, if o.ref == Some("") then None else o.ref)
    ensures PickRun(runs, o) == if o.sinceRun.None? then Some(Cited(runs[0], true)) else None
  {
    if o.sinceRun.Some? {
      forall r
        ensures r in Above(runs, o.sinceRun.value) <==> r in runs && r.id > o.sinceRun.value
      {
        AboveKeeps(runs, o.sinceRun.value, r);
      }
      HeadIn(Above(runs, o.sinceRun.value));
      if HasRef(o) {
        FirstOnFinds(Above(runs, o.sinceRun.value), o.ref.value);
      }
    } else if HasRef(o) {
      FirstOnFinds(runs, o.ref.value);
    }
    HeadIn(runs);
  }

  lemma HeadIn(runs: seq<Run>)
    ensures runs != [] ==> runs[0] in runs
  {
  }

  // ----- the section of a finished run -----

  predicate Has(s: string, c: char) { exists i :: 0 <= i < |s| && s[i] == c }

  const MAX_VALUE_LENGTH: nat := 256

  predicate ShapeOk(s: string) { !Has(s, '\r') && !Has(s, '\n') && !Has(s, '`') && |s| <= MAX_VALUE_LENGTH }

  function ConcludeRun(c: Cited, artifact: Artifact): (r: Outcome)
    ensures !r.Pending? && !r.NoRun? && CitedBy(r) == Some(c)
  {
    if c.run.conclusion != Some("success") then DeployFailed(c)
    else if artifact.Err? then Degraded(Some(c))
    else
      var version, digest := Text.Trim(artifact.value.0), Text.Trim(artifact.value.1);
      if !ShapeOk(version) || !ShapeOk(digest) || version == "" || digest == "" then Degraded(Some(c))
      else Success(version, digest, c)
  }

  /** The value a file holds: what stands between the white text at its ends, when a section may show it. */
  ghost predicate Spells(file: string, v: string) {
    && v != "" && Text.Trimmed(v) && '\r' !in v && '\n' !in v && '`' !in v && |v| <= 256
    && exists a, b :: Text.AllWhite(a) && Text.AllWhite(b) && file == a + v + b
  }

  lemma ShapeMeans(v: string)
    ensures ShapeOk(v) <==> '\r' !in v && '\n' !in v && '`' !in v && |v| <= 256
  {
  }

  lemma SpellsOnce(file: string, v: string)
    ensures Spells(file, v) <==> v == Text.Trim(file) && v != "" && ShapeOk(v)
  {
    hide ShapeOk, Text.Trim, Text.Trimmed, Text.AllWhite;
    ShapeMeans(v);
    if Spells(file, v) {
      var a, b :| Text.AllWhite(a) && Text.AllWhite(b) && file == a + v + b;
      Text.TrimPad(a, v, b);
      Text.TrimmedUnchanged(v);
    }
    if v == Text.Trim(file) {
      var a, b := Text.TrimShape(file);
      Text.TrimmedUnchanged(file);
    }
  }

  /** A finished run ends in success, with exactly the values its two files hold, iff it succeeded and both hold one;
      a run that succeeded without that is degraded, never failed, and every ending cites the run. */
  lemma ConcludeExactly(c: Cited, artifact: Artifact, version: string, digest: string)
    ensures ConcludeRun(c, artifact) == Success(version, digest, c) <==>
              && c.run.conclusion == Some("success")
              && artifact.Ok? && Spells(artifact.value.0, version) && Spells(artifact.value.1, digest)
    ensures ConcludeRun(c, artifact) == DeployFailed(c) <==> c.run.conclusion != Some("success")
    ensures ConcludeRun(c, artifact) == Degraded(Some(c)) <==>
              && c.run.conclusion == Some("success")
              && !(artifact.Ok? && (exists v :: Spells(artifact.value.0, v)) && exists d :: Spells(artifact.value.1, d))
  {
    hide Spells, ShapeOk;
    if artifact.Ok? {
      forall v
        ensures Spells(artifact.value.0, v) <==> v == Text.Trim(artifact.value.0) && v != "" && ShapeOk(v)
        ensures Spells(artifact.value.1, v) <==> v == Text.Trim(artifact.value.1) && v != "" && ShapeOk(v)
      {
        SpellsOnce(artifact.value.0, v);
        SpellsOnce(artifact.value.1, v);
      }
      SpellsOnce(artifact.value.0, Text.Trim(artifact.value.0));
      SpellsOnce(artifact.value.1, Text.Trim(artifact.value.1));
    }
  }

  // ----- what the polls saw -----

  /** One poll: the listed runs, or a failed call. */
  type Poll = Option<seq<Run>>

  function PickIn(p: Poll, o: Options): Option<Cited> { if p.Some? then PickRun(p.value, o) else None }

  /** The pick of the latest poll that had one. */
  function LastPick(polls: seq<Poll>, o: Options): Option<Cited> {
    if polls == [] then None
    else if PickIn(polls[|polls| - 1], o).Some? then PickIn(polls[|polls| - 1], o)
    else LastPick(polls[..|polls| - 1], o)
  }

  /** So a section that gives up, or that an error cuts short, cites what the latest such poll picked. */
  lemma {:induction false} LastPickIsLatest(polls: seq<Poll>, o: Options, i: nat)
    requires i < |polls| && PickIn(polls[i], o).Some? && forall j | i < j < |polls| :: PickIn(polls[j], o).None?
    ensures LastPick(polls, o) == PickIn(polls[i], o)
  {
    if i < |polls| - 1 {
      LastPickIsLatest(polls[..|polls| - 1], o, i);
    }
  }

  predicate OnlyExcluded(p: Poll, o: Options) { p.Some? && p.value != [] && PickRun(p.value, o).None? }

  predicate SawExcluded(polls: seq<Poll>, o: Options) {
    polls != [] && (OnlyExcluded(polls[|polls| - 1], o) || SawExcluded(polls[..|polls| - 1], o))
  }

  lemma {:induction false} SawExcludedMeans(polls: seq<Poll>, o: Options)
    ensures SawExcluded(polls, o) <==> exists p :: p in polls && OnlyExcluded(p, o)
  {
    if polls != [] {
      SawExcludedMeans(polls[..|polls| - 1], o);
      assert polls == polls[..|polls| - 1] + [polls[|polls| - 1]];
    }
  }

  predicate KeepsWaiting(p: Poll, o: Options) { p.Some? && (PickIn(p, o).Some? ==> !PickIn(p, o).value.run.completed) }

  /** The outcome a sequence of polls must end in. */
  function Ending(polls: seq<Poll>, o: Options, artifact: int -> Artifact): Outcome
    requires polls != []
  {
    var last := polls[|polls| - 1];
    if last.None? then Degraded(LastPick(polls[..|polls| - 1], o))
    else if !KeepsWaiting(last, o) then ConcludeRun(PickIn(last, o).value, artifact(PickIn(last, o).value.run.id))
    else if LastPick(polls, o).Some? then Pending(LastPick(polls, o).value)
    else NoRun(if SawExcluded(polls, o) then o.sinceRun else None)
  }

  // ----- the loop -----

  /** The clock and the run service. `listing` and `delays` stand for whatever they will answer;
      a sleep lasts at least the time asked. `history` is every answer given. */
  class World {
    const listing: nat -> Poll
    const delays: nat -> nat
    ghost var history: seq<Poll>
    var polls: nat
    var ticks: nat
    var time: int

    constructor (listing: nat -> Poll, delays: nat -> nat, time: int)
      ensures this.listing == listing && this.delays == delays && this.time == time && history == []
    {
      this.listing, this.delays, this.time, polls, ticks, history := listing, delays, time, 0, 0, [];
    }

    method ListRuns() returns (p: Poll)
      modifies `polls, `history
      ensures p == listing(old(polls)) && polls == old(polls) + 1 && history == old(history) + [p]
    {
      p := listing(polls);
      polls, history := polls + 1, history + [p];
    }

    method Now() returns (t: int)
      modifies `time, `ticks
      ensures t == time >= old(time)
    {
      time := time + delays(ticks);
      ticks := ticks + 1;
      t := time;
    }

    method Sleep(ms: int)
      modifies `time, `ticks
      ensures time >= old(time) && time >= old(time) + ms
    {
      time := time + delays(ticks) + if ms > 0 then ms else 0;
      ticks := ticks + 1;
    }
  }

  /** The number of intervals that cover the wait, the last one perhaps partly. */
  function Intervals(waitMs: nat, intervalMs: nat): nat
    requires intervalMs > 0
  {
    (waitMs + intervalMs - 1) / intervalMs
  }

  /** `n` whole intervals. */
  function Slept(n: nat, intervalMs: nat): nat { n * intervalMs }

  /** The fewest intervals that are as long as the wait. */
  lemma IntervalsCover(waitMs: nat, intervalMs: nat, n: nat)
    requires intervalMs > 0
    ensures Intervals(waitMs, intervalMs) <= n <==> waitMs <= n * intervalMs
  {
    var k := Intervals(waitMs, intervalMs);
    Multiples(k, n, intervalMs);
    Multiples(n + 1, k, intervalMs);
    assert k * intervalMs <= waitMs + intervalMs - 1 < k * intervalMs + intervalMs;
    assert (n + 1) * intervalMs == n * intervalMs + intervalMs;
  }

  lemma Multiples(a: nat, b: nat, unit: nat)
    requires unit > 0
    ensures a <= b ==> a * unit <= b * unit
  {
  }

  lemma SleptMore(n: nat, intervalMs: nat)
    ensures Slept(n + 1, intervalMs) == Slept(n, intervalMs) + intervalMs && Slept(0, intervalMs) == 0
  {
  }

  lemma BeforeDeadline(n: nat, waitMs: nat, intervalMs: nat)
    requires intervalMs > 0 && Slept(n, intervalMs) < waitMs
    ensures n < Intervals(waitMs, intervalMs)
  {
  }

  /** What the loop's variables hold after polls that ended nothing. */
  predicate Waiting(polls: seq<Poll>, o: Options, seen: Option<Cited>, sawExcludedRuns: bool) {
    && (forall i | 0 <= i < |polls| :: KeepsWaiting(polls[i], o))
    && seen == LastPick(polls, o) && sawExcludedRuns == SawExcluded(polls, o)
  }

  lemma OneMorePoll(o: Options, before: seq<Poll>, runs: seq<Run>, seen: Option<Cited>, saw: bool)
    requires Waiting(before, o, seen, saw) && KeepsWaiting(Some(runs), o)
    ensures var picked := PickRun(runs, o);
            Waiting(before + [Some(runs)], o, if picked.Some? then picked else seen,
                    saw || (picked.None? && |runs| > 0))
  {
  }

  /** How each way out of the loop reads off the polls. */
  lemma EndingOf(o: Options, artifact: int -> Artifact, before: seq<Poll>, p: Poll)
    ensures p.None? ==> Ending(before + [p], o, artifact) == Degraded(LastPick(before, o))
    ensures p.Some? && !KeepsWaiting(p, o) ==>
              && PickIn(p, o).Some?
              && var c := PickIn(p, o).value; Ending(before + [p], o, artifact) == ConcludeRun(c, artifact(c.run.id))
  {
  }

  lemma NothingYet(o: Options)
    ensures Waiting([], o, None, false)
  {
  }

  /** `polls` is what this call asked for: a call may end only here, and its outcome is the ending of these polls. */
  predicate Ends(polls: seq<Poll>, o: Options, artifact: int -> Artifact, r: Outcome) {
    && polls != [] && r == Ending(polls, o, artifact)
    && forall i | 0 <= i < |polls| - 1 :: KeepsWaiting(polls[i], o)
  }

  /** One poll: either the answer, or the variables for the next turn. */
  method PollOnce(w: World, o: Options, artifact: int -> Artifact, ghost polls: seq<Poll>, seen: Option<Cited>,
      sawExcludedRuns: bool)
    returns (done: Option<Outcome>, seen': Option<Cited>, saw': bool)
    requires Waiting(polls, o, seen, sawExcludedRuns)
    modifies w`polls, w`history
    ensures |w.history| == |old(w.history)| + 1 && w.history[..|old(w.history)|] == old(w.history)
    ensures var now := polls + [w.history[|old(w.history)|]];
            if done.Some? then Ends(now, o, artifact, done.value) && !done.value.Pending? && !done.value.NoRun?
            else Waiting(now, o, seen', saw')
  {
    var listed := w.ListRuns();
    EndingOf(o, artifact, polls, listed);
    seen', saw' := seen, sawExcludedRuns;
    if listed.None? {
      return Some(Degraded(seen)), seen', saw';
    }
    var picked := PickRun(listed.value, o);
    if picked.None? && |listed.value| > 0 {
      saw' := true;
    }
    if picked.Some? {
      seen' := picked;
      if picked.value.run.completed {
        return Some(ConcludeRun(picked.value, artifact(picked.value.run.id))), seen', saw';
      }
    }
    OneMorePoll(o, polls, listed.value, seen, sawExcludedRuns);
    done := None;
  }

  /** The deadline has passed with nothing finished. */
  method GiveUp(o: Options, ghost artifact: int -> Artifact, ghost polls: seq<Poll>, seen: Option<Cited>,
      sawExcludedRuns: bool)
    returns (r: Outcome)
    requires polls != [] && Waiting(polls, o, seen, sawExcludedRuns)
    ensures Ends(polls, o, artifact, r)
  {
    if seen.None? {
      return NoRun(if sawExcludedRuns then o.sinceRun else None);
    }
    return Pending(seen.value);
  }

  method CollectDeployEvidence(w: World, o: Options, artifact: int -> Artifact) returns (r: Outcome)
    requires o.intervalMs > 0
    modifies w
    ensures |old(w.history)| < |w.history| <= |old(w.history)| + Intervals(o.waitMs, o.intervalMs) + 1
    ensures w.history[..|old(w.history)|] == old(w.history)
    ensures Ends(w.history[|old(w.history)|..], o, artifact, r)
    ensures r.Pending? || r.NoRun? ==> w.time >= old(w.time) + o.waitMs
  {
    var start := w.Now();
    var deadline := start + o.waitMs;
    var seen: Option<Cited> := None;
    var sawExcludedRuns := false;
    ghost var polls: seq<Poll>, n := [], 0;
    NothingYet(o);
    SleptMore(0, o.intervalMs);
    hide *;
    while true
      invariant w.history == old(w.history) + polls && |polls| == n && start >= old(w.time)
      invariant Waiting(polls, o, seen, sawExcludedRuns)
      invariant w.time >= deadline || w.time >= start + Slept(n, o.intervalMs)
      invariant n <= Intervals(o.waitMs, o.intervalMs)
      decreases Intervals(o.waitMs, o.intervalMs) - n
    {
      var done;
      done, seen, sawExcludedRuns := PollOnce(w, o, artifact, polls, seen, sawExcludedRuns);
      polls := polls + [w.history[|old(w.history)| + n]];
      assert w.history == old(w.history) + polls;
      if done.Some? {
        return done.value;
      }
      var t := w.Now();
      if t >= deadline {
        r := GiveUp(o, artifact, polls, seen, sawExcludedRuns);
        return;
      }
      BeforeDeadline(n, o.waitMs, o.intervalMs);
      t := w.Now();
      w.Sleep(if o.intervalMs <= deadline - t then o.intervalMs else deadline - t);
      SleptMore(n, o.intervalMs);
      n := n + 1;
    }
  }

  // ----- what any ending may say -----

  /** A call ends as its polls say, and none of them but the last failed or picked a completed run. */
  lemma EndsMeans(polls: seq<Poll>, o: Options, artifact: int -> Artifact, r: Outcome)
    requires Ends(polls, o, artifact, r)
    ensures polls != [] && r == Ending(polls, o, artifact)
    ensures forall i, c | 0 <= i < |polls| - 1 && polls[i].Some? && PickRun(polls[i].value, o) == Some(c) ::
              !c.run.completed
    ensures forall i | 0 <= i < |polls| - 1 :: polls[i].Some?
  {
    hide PickRun, Ending;
  }

  lemma {:induction false} LastPickIsCitable(polls: seq<Poll>, o: Options)
    requires LastPick(polls, o).Some?
    ensures var c := LastPick(polls, o).value;
            && Citable(c.run, o) && (c.refFallback <==> HasRef(o) && !OnRef(c.run, o))
            && exists p :: p in polls && p.Some? && c.run in p.value
  {
    var last, front := polls[|polls| - 1], polls[..|polls| - 1];
    if PickIn(last, o).Some? {
      PickExactly(last.value, o);
    } else {
      LastPickIsCitable(front, o);
      var p :| p in front && p.Some? && LastPick(polls, o).value.run in p.value;
      assert p in polls;
    }
  }

  /** The latest poll that picked a run picked this one. */
  predicate LatestAt(polls: seq<Poll>, o: Options, c: Cited, i: nat) {
    && i < |polls| && polls[i].Some? && PickRun(polls[i].value, o) == Some(c)
    && forall j | i < j < |polls| :: polls[j].None? || PickRun(polls[j].value, o).None?
  }

  lemma LatestStays(polls: seq<Poll>, o: Options, c: Cited, i: nat)
    requires polls != [] && PickIn(polls[|polls| - 1], o).None? && LatestAt(polls[..|polls| - 1], o, c, i)
    ensures LatestAt(polls, o, c, i)
  {
    hide PickRun;
    assert forall j | 0 <= j < |polls| - 1 :: polls[..|polls| - 1][j] == polls[j];
  }

  lemma {:induction false} LastPickAt(polls: seq<Poll>, o: Options, c: Cited) returns (i: nat)
    requires LastPick(polls, o) == Some(c)
    ensures LatestAt(polls, o, c, i)
  {
    hide PickRun, LatestAt;
    i := |polls| - 1;
    if PickIn(polls[i], o).None? {
      i := LastPickAt(polls[..i], o, c);
      LatestStays(polls, o, c, i);
    } else {
      LastIsLatest(polls, o, c);
    }
  }

  lemma LastIsLatest(polls: seq<Poll>, o: Options, c: Cited)
    requires polls != [] && PickIn(polls[|polls| - 1], o) == Some(c)
    ensures LatestAt(polls, o, c, |polls| - 1)
  {
    hide PickRun;
  }

  lemma LastPickIs(polls: seq<Poll>, o: Options, c: Cited)
    ensures LastPick(polls, o) == Some(c) <==> exists i: nat :: LatestAt(polls, o, c, i)
  {
    hide PickRun, LastPick;
    if i: nat :| LatestAt(polls, o, c, i) {
      LastPickIsLatest(polls, o, i);
    }
    if LastPick(polls, o) == Some(c) {
      var i := LastPickAt(polls, o, c);
    }
  }

  /** What polls that ended nothing before the last end in: a failed call and a passed deadline cite the latest pick, a
      completed run is concluded, and without any pick there was no run. */
  lemma EndingMeans(polls: seq<Poll>, o: Options, artifact: int -> Artifact, c: Cited)
    requires polls != []
    ensures var last, front, ending := polls[|polls| - 1], polls[..|polls| - 1], Ending(polls, o, artifact);
            && (last.None? ==>
                  && ending.Degraded? && (ending.seen == Some(c) <==> exists i: nat :: LatestAt(front, o, c, i)))
            && (last.Some? && PickRun(last.value, o) == Some(c) && c.run.completed ==>
                  ending == ConcludeRun(c, artifact(c.run.id)))
            && (last.Some? && (PickRun(last.value, o).Some? ==> !PickRun(last.value, o).value.run.completed) ==>
                  && (ending.Pending? || ending.NoRun?)
                  && (ending == Pending(c) <==> exists i: nat :: LatestAt(polls, o, c, i)))
  {
    hide PickRun, ConcludeRun, LatestAt;
    LastPickIs(polls, o, c);
    LastPickIs(polls[..|polls| - 1], o, c);
  }

  /** Whatever the outcome, a cited run was listed, may be cited, and its fallback is disclosed exactly when it is one:
      with a boundary its id is above it, and with a boundary and a ref it is on that ref. */
  lemma EveryCitationIsOwn(polls: seq<Poll>, o: Options, artifact: int -> Artifact)
    requires polls != [] && CitedBy(Ending(polls, o, artifact)).Some?
    ensures var c := CitedBy(Ending(polls, o, artifact)).value;
            && (exists p :: p in polls && p.Some? && c.run in p.value)
            && (o.sinceRun.Some? ==> c.run.id > o.sinceRun.value)
            && (o.sinceRun.Some? && HasRef(o) ==> c.run.branch == o.ref.value && !c.refFallback)
            && (HasRef(o) ==> (c.refFallback <==> c.run.branch != o.ref.value))
  {
    var last, front := polls[|polls| - 1], polls[..|polls| - 1];
    if last.None? {
      LastPickIsCitable(front, o);
      var p :| p in front && p.Some? && LastPick(front, o).value.run in p.value;
      assert p in polls;
    } else if !KeepsWaiting(last, o) {
      PickExactly(last.value, o);
    } else {
      LastPickIsCitable(polls, o);
    }
  }

  lemma {:induction false} NothingPicked(polls: seq<Poll>, o: Options)
    requires LastPick(polls, o).None?
    ensures forall p | p in polls :: PickIn(p, o).None?
  {
    if polls != [] {
      NothingPicked(polls[..|polls| - 1], o);
      assert polls == polls[..|polls| - 1] + [polls[|polls| - 1]];
    }
  }

  lemma ListedButExcluded(p: Poll, o: Options, r: Run)
    requires p.Some? && r in p.value && PickIn(p, o).None?
    ensures !Citable(r, o) && o.sinceRun.Some? && OnlyExcluded(p, o)
  {
    PickExactly(p.value, o);
  }

  /** "No run" is said only when no poll listed a citable run; it names the boundary exactly when
      some poll listed runs, none of them citable. */
  lemma NoRunIsTrue(polls: seq<Poll>, o: Options, artifact: int -> Artifact)
    requires polls != [] && Ending(polls, o, artifact).NoRun?
    ensures forall p, r | p in polls && p.Some? && r in p.value :: !Citable(r, o)
    ensures Ending(polls, o, artifact).boundary.Some? <==> exists p :: p in polls && p.Some? && p.value != []
  {
    NothingPicked(polls, o);
    SawExcludedMeans(polls, o);
    forall p, r | p in polls && p.Some? && r in p.value
      ensures !Citable(r, o)
    {
      ListedButExcluded(p, o, r);
    }
    forall p | p in polls && p.Some? && p.value != []
      ensures o.sinceRun.Some? && OnlyExcluded(p, o)
    {
      ListedButExcluded(p, o, p.value[0]);
    }
  }
}
