/** Bucket boundaries of the insights surface, on UTC day numbers (day 0 is 1970-01-01, a Thursday). */
module InsightsDates {
  import opened Ordered

  /** 0 is Sunday. */
  function DayOfWeek(d: int): int { (d + 4) % 7 }

  function MondayOf(d: int): int { d - (DayOfWeek(d) + 6) % 7 }

  /** The latest Monday not after the day. */
  lemma MondayIsLatest(d: int, monday: int)
    requires DayOfWeek(monday) == 1
    ensures DayOfWeek(MondayOf(d)) == 1 && MondayOf(d) <= d < MondayOf(d) + 7
    ensures monday <= d <==> monday <= MondayOf(d)
    ensures MondayOf(d) == monday <==> monday <= d < monday + 7
  {
  }

  lemma MondayIsMonday(d: int)
    ensures DayOfWeek(MondayOf(d)) == 1
  {
  }

  function DayGridOf(today: int, windowDays: nat): seq<int> {
    seq(windowDays + 1, i requires 0 <= i <= windowDays => today - windowDays + i)
  }

  function WeekGridOf(today: int, windowDays: nat): seq<int> {
    var first, last := MondayOf(today - windowDays), MondayOf(today);
    seq((last - first) / 7 + 1, i requires 0 <= i => first + 7 * i)
  }

  method DayGrid(today: int, windowDays: nat) returns (grid: seq<int>)
    ensures grid == DayGridOf(today, windowDays)
  {
    grid := [];
    var day := today - windowDays;
    while day <= today
      invariant day == today - windowDays + |grid| && |grid| <= windowDays + 1
      invariant grid == DayGridOf(today, windowDays)[..|grid|]
    {
      grid := grid + [day];
      day := day + 1;
    }
  }

  method WeekGrid(today: int, windowDays: nat) returns (grid: seq<int>)
    ensures grid == WeekGridOf(today, windowDays)
  {
    var first, last := MondayOf(today - windowDays), MondayOf(today);
    WholeWeeks(today, windowDays);
    ghost var all := WeekGridOf(today, windowDays);
    grid := [];
    var day := first;
    while day <= last
      invariant day == first + 7 * |grid| && day <= last + 7
      invariant |grid| <= |all| && grid == all[..|grid|]
    {
      assert all[|grid|] == day;
      grid := grid + [day];
      day := day + 7;
    }
    assert |grid| == |all|;
  }

  lemma MondayForm(d: int)
    ensures MondayOf(d) == 7 * ((d + 3) / 7) - 3
  {
  }

  lemma WeeksApart(a: int, w: nat)
    ensures 0 <= (a + w) / 7 - a / 7 <= w / 7 + 1
  {
  }

  lemma WholeWeeks(today: int, windowDays: nat)
    ensures var first, last := MondayOf(today - windowDays), MondayOf(today);
            first <= last && (last - first) % 7 == 0 && (last - first) / 7 <= windowDays / 7 + 1
  {
    var a := today - windowDays + 3;
    MondayForm(today - windowDays);
    MondayForm(today);
    WeeksApart(a, windowDays);
    var weeks := (a + windowDays) / 7 - a / 7;
    assert MondayOf(today) - MondayOf(today - windowDays) == 7 * weeks;
  }

  lemma DayGridExact(today: int, windowDays: nat)
    ensures Ascending(DayGridOf(today, windowDays))
    ensures forall d :: d in DayGridOf(today, windowDays) <==> today - windowDays <= d <= today
  {
    forall d | today - windowDays <= d <= today
      ensures d in DayGridOf(today, windowDays)
    {
      assert DayGridOf(today, windowDays)[d - (today - windowDays)] == d;
    }
  }

  lemma WeekGridHasMonday(today: int, windowDays: nat, m: int)
    requires DayOfWeek(m) == 1 && MondayOf(today - windowDays) <= m <= MondayOf(today)
    ensures m in WeekGridOf(today, windowDays)
  {
    var first := MondayOf(today - windowDays);
    MondayIsLatest(today - windowDays, m);
    assert (m - first) % 7 == 0;
    assert WeekGridOf(today, windowDays)[(m - first) / 7] == m;
  }

  /** The grid is the Mondays of the window's days, each once, seven days apart, and never more than w/7 + 2 of them. */
  lemma WeekGridExact(today: int, windowDays: nat)
    ensures var grid := WeekGridOf(today, windowDays);
            && Ascending(grid) && |grid| <= windowDays / 7 + 2
            && (forall i | 0 <= i < |grid| - 1 :: grid[i + 1] == grid[i] + 7)
            && forall m :: m in grid <==> exists d :: today - windowDays <= d <= today && MondayOf(d) == m
  {
    hide MondayOf;
    var grid, first := WeekGridOf(today, windowDays), MondayOf(today - windowDays);
    MondayIsMonday(today - windowDays);
    WholeWeeks(today, windowDays);
    forall d | today - windowDays <= d <= today
      ensures MondayOf(d) in grid
    {
      MondayIsLatest(d, first);
      MondayIsLatest(today, MondayOf(d));
      MondayIsLatest(today - windowDays, first);
      WeekGridHasMonday(today, windowDays, MondayOf(d));
    }
    forall i | 0 <= i < |grid|
      ensures exists d :: today - windowDays <= d <= today && MondayOf(d) == grid[i]
    {
      var m := grid[i];
      MondayIsLatest(today - windowDays, first);
      assert DayOfWeek(m) == 1;
      var d := if m < today - windowDays then today - windowDays else m;
      MondayIsLatest(today, m);
      MondayIsLatest(d, m);
    }
  }
}
