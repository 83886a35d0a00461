/** The scheduled sweep: which rows one run flips and how repeated runs drain a backlog. */
module InviteSweep {
  import opened Entitlement
  import opened InviteModel

  lemma SweepOrder(invites: Invites, a: InviteId, b: InviteId, c: InviteId)
    requires a in invites && b in invites && c in invites
    ensures a != b ==> Before(invites, a, b) || Before(invites, b, a)
    ensures Before(invites, a, b) && Before(invites, b, c) ==> Before(invites, a, c)
  {
  }

  predicate IsLeast(invites: Invites, ids: set<InviteId>, m: InviteId)
    requires ids <= invites.Keys && m in ids
  {
    forall o | o in ids && o != m :: Before(invites, m, o)
  }

  lemma LeastOfTwo(invites: Invites, ids: set<InviteId>, x: InviteId, m: InviteId)
    requires ids <= invites.Keys && x in ids && m in ids && x != m && IsLeast(invites, ids - {x}, m)
    ensures IsLeast(invites, ids, if Before(invites, x, m) then x else m)
  {
    hide Before;
    var least := if Before(invites, x, m) then x else m;
    forall o | o in ids && o != least
      ensures Before(invites, least, o)
    {
      assert o == x || o == m || Before(invites, m, o);
      SweepOrder(invites, x, m, o);
    }
  }

  lemma {:induction false} LeastExists(invites: Invites, ids: set<InviteId>)
    requires ids <= invites.Keys && ids != {}
    ensures exists m :: m in ids && IsLeast(invites, ids, m)
  {
    hide Before;
    var x :| x in ids;
    if ids != {x} {
      LeastExists(invites, ids - {x});
      var m :| m in ids - {x} && IsLeast(invites, ids - {x}, m);
      var least := if Before(invites, x, m) then x else m;
      LeastOfTwo(invites, ids, x, m);
      assert IsLeast(invites, ids, least);
    } else {
      assert IsLeast(invites, ids, x);
    }
  }

  lemma {:induction false} ChoiceExists(invites: Invites, now: Time, cap: nat)
    ensures exists chosen :: IsSweepChoice(invites, now, cap, chosen)
  {
    var lapsed := LapsedIds(invites, now);
    if cap == 0 || lapsed == {} {
      assert IsSweepChoice(invites, now, cap, {});
    } else {
      ChoiceExists(invites, now, cap - 1);
      var some :| IsSweepChoice(invites, now, cap - 1, some);
      var rest := lapsed - some;
      if rest == {} {
        assert forall x | x in lapsed :: x in some || x in rest;
        assert some == lapsed;
        assert IsSweepChoice(invites, now, cap, some);
      } else {
        assert |rest| == |lapsed| - |some|;
        LeastExists(invites, rest);
        var m :| m in rest && IsLeast(invites, rest, m);
        assert IsSweepChoice(invites, now, cap, some + {m});
      }
    }
  }

  /** Sweep order leaves no choice: two correct choices are the same set, the rows that expire first, by id among
      equals. */
  lemma ChoiceUnique(invites: Invites, now: Time, cap: nat, a: set<InviteId>, b: set<InviteId>)
    requires IsSweepChoice(invites, now, cap, a) && IsSweepChoice(invites, now, cap, b)
    ensures a == b
    ensures forall x, y | x in a && y in LapsedIds(invites, now) - a ::
              invites[x].expiresAt <= invites[y].expiresAt
              && (invites[x].expiresAt == invites[y].expiresAt ==> x.rank < y.rank)
  {
    if a != b {
      SameSizeDiffer(a, b);
      var x :| x in a - b;
      var y :| y in b - a;
      var cycle := (Before(invites, x, y), Before(invites, y, x));
      assert false;
    }
  }

  lemma SameSizeDiffer<T>(a: set<T>, b: set<T>)
    requires |a| == |b| && a != b
    ensures a - b != {} && b - a != {}
  {
    assert a == (a * b) + (a - b);
    assert b == (a * b) + (b - a);
    assert |a| == |a * b| + |a - b|;
    assert |b| == |a * b| + |b - a|;
  }

  ghost function SweepChoice(invites: Invites, now: Time, cap: nat): (chosen: set<InviteId>)
    ensures IsSweepChoice(invites, now, cap, chosen)
  {
    ChoiceExists(invites, now, cap);
    var chosen :| IsSweepChoice(invites, now, cap, chosen);
    chosen
  }

  /** Rows picked one by one, each before all that are left, are the sweep's choice. */
  lemma LeastAreTheChoice(
    invites: Invites, now: Time, cap: nat, chosen: set<InviteId>, left: set<InviteId>)
    requires chosen + left == LapsedIds(invites, now) && chosen !! left
    requires |chosen| == cap || (|chosen| <= cap && left == {})
    requires forall a, b | a in chosen && b in left :: Before(invites, a, b)
    ensures chosen == SweepChoice(invites, now, cap) && |chosen| == Min(cap, |LapsedIds(invites, now)|)
  {
    hide Before;
    assert |LapsedIds(invites, now)| == |chosen| + |left|;
    assert LapsedIds(invites, now) - chosen == left;
    assert IsSweepChoice(invites, now, cap, chosen);
    ChoiceUnique(invites, now, cap, chosen, SweepChoice(invites, now, cap));
  }

  ghost function SweepOnce(invites: Invites, now: Time, cap: nat): Invites {
    ExpireIds(invites, SweepChoice(invites, now, cap))
  }

  ghost function SweepRuns(invites: Invites, now: Time, cap: nat, runs: nat): Invites {
    if runs == 0 then invites else SweepRuns(SweepOnce(invites, now, cap), now, cap, runs - 1)
  }

  lemma SweepLeaves(invites: Invites, now: Time, cap: nat)
    ensures LapsedIds(SweepOnce(invites, now, cap), now) == LapsedIds(invites, now) - SweepChoice(invites, now, cap)
    ensures |LapsedIds(SweepOnce(invites, now, cap), now)| ==
            |LapsedIds(invites, now)| - Min(cap, |LapsedIds(invites, now)|)
  {
  }

  /** With the clock fixed, a backlog of `n` rows is drained after exactly those run counts with runs * cap >= n. */
  lemma {:induction false} SweepDrains(invites: Invites, now: Time, cap: nat, runs: nat)
    ensures LapsedIds(SweepRuns(invites, now, cap, runs), now) == {} <==> runs * cap >= |LapsedIds(invites, now)|
  {
    if runs > 0 {
      SweepLeaves(invites, now, cap);
      SweepDrains(SweepOnce(invites, now, cap), now, cap, runs - 1);
      assert runs * cap == (runs - 1) * cap + cap;
    }
  }

  /** A lapsed row is never left behind while one that expires later, or with a higher id at the same time, is
      flipped. */
  lemma SweepNeverSkips(invites: Invites, now: Time, cap: nat, older: InviteId, newer: InviteId)
    requires older in invites && newer in invites
    requires invites[older].status.Pending? && invites[older].expiresAt <= now
    requires invites[newer].status.Pending? && invites[newer].expiresAt <= now
    requires invites[older].expiresAt < invites[newer].expiresAt
             || (invites[older].expiresAt == invites[newer].expiresAt && older.rank < newer.rank)
    requires SweepOnce(invites, now, cap)[newer].status.Expired?
    ensures SweepOnce(invites, now, cap)[older].status.Expired?
  {
    var chosen := SweepChoice(invites, now, cap);
    if older !in chosen {
      var skipped := Before(invites, newer, older);
      assert false;
    }
  }

  /** A sweep flips lapsed rows alone, as many as the cap allows, and changes nothing else in any row. */
  lemma SweepFlipsLapsed(invites: Invites, now: Time, cap: nat)
    ensures var after := SweepOnce(invites, now, cap);
            var lapsed := set id | id in invites && invites[id].status.Pending? && invites[id].expiresAt <= now;
            var flipped := set id | id in invites && after[id] != invites[id];
            && after.Keys == invites.Keys && flipped <= lapsed
            && |flipped| == (if |lapsed| < cap then |lapsed| else cap)
            && forall id | id in flipped :: after[id] == invites[id].(status := Expired)
  {
    var after := SweepOnce(invites, now, cap);
    var lapsed := set id | id in invites && invites[id].status.Pending? && invites[id].expiresAt <= now;
    var flipped := set id | id in invites && after[id] != invites[id];
    assert lapsed == LapsedIds(invites, now);
    assert flipped == SweepChoice(invites, now, cap);
  }
}
