/** The monthly report scheduler (`MonthlyTaskRunner.run`): a loop that wakes
    up, decides whether to generate the report for the previous month, and
    sleeps one hour. The only state is the `startUp` flag; wake-ups are given
    as a sequence of events, and an interrupt ends the loop. */
module Scheduler {
  import opened Text
  import opened Calendar

  /** The generation window: the first day of a month, before 00:59. */
  predicate InWindow(t: DateTime) {
    t.date.day == 1 && t.minuteOfDay < 59
  }

  datatype Decision = Decision(generate: bool, year: int, month: int, startUp: bool)

  /** One loop iteration at time `now`: the report period is the month before
      `now`, and the report is generated inside the window or on the first
      iteration of the process. */
  function Step(startUp: bool, now: DateTime): (d: Decision)
    ensures d.generate <==> startUp || InWindow(now)
    ensures !d.startUp
    ensures 1 <= d.month <= 12
    ensures d.year * 12 + d.month == now.date.year * 12 + now.date.month - 1
  {
    var (year, month) := PreviousMonth(now.date.year, now.date.month);
    var generate := InWindow(now) || startUp;
    Decision(generate, year, month, if generate then false else startUp)
  }

  datatype Event = Wake(at: DateTime) | Interrupt

  /** A generated report: when, and for which year and month. */
  datatype Generation = Generation(at: DateTime, year: int, month: int)

  predicate PeriodOf(g: Generation) {
    1 <= g.month <= 12 && g.year * 12 + g.month == g.at.date.year * 12 + g.at.date.month - 1
  }

  /** The reports one process generates. */
  function Run(startUp: bool, evs: seq<Event>): (gs: seq<Generation>)
    ensures |gs| <= |evs|
    ensures forall j :: 0 <= j < |gs| ==> PeriodOf(gs[j])
    ensures forall j :: 0 <= j < |gs| && (j > 0 || !startUp) ==> InWindow(gs[j].at)
    decreases |evs|
  {
    if evs == [] then []
    else match evs[0]
      case Interrupt => []
      case Wake(t) =>
        var d := Step(startUp, t);
        (if d.generate then [Generation(t, d.year, d.month)] else []) + Run(d.startUp, evs[1..])
  }

  /** The first wake-up of a process always generates, whatever the date. */
  lemma FirstWakeGenerates(t: DateTime, rest: seq<Event>)
    ensures var gs := Run(true, [Wake(t)] + rest);
      |gs| >= 1 && gs[0].at == t
  {
    assert ([Wake(t)] + rest)[1..] == rest;
  }

  /** An interrupt ends the loop: nothing after it is looked at. */
  lemma {:induction false} InterruptEnds(startUp: bool, evs: seq<Event>, rest: seq<Event>)
    ensures Run(startUp, evs + [Interrupt] + rest) == Run(startUp, evs)
    decreases |evs|
  {
    if evs == [] {
      assert (evs + [Interrupt] + rest)[0] == Interrupt;
    } else {
      assert (evs + [Interrupt] + rest)[0] == evs[0];
      assert (evs + [Interrupt] + rest)[1..] == evs[1..] + [Interrupt] + rest;
      if evs[0].Wake? {
        InterruptEnds(Step(startUp, evs[0].at).startUp, evs[1..], rest);
      }
    }
  }

  /** No interrupt comes before position `i`, so the loop reaches it. */
  predicate Reached(evs: seq<Event>, i: int) {
    forall k :: 0 <= k < i && k < |evs| ==> evs[k].Wake?
  }

  /** Every wake-up the loop reaches inside the window generates the report
      for the month before it. */
  lemma {:induction false} WindowWakeGenerates(startUp: bool, evs: seq<Event>, i: int)
    requires 0 <= i < |evs| && evs[i].Wake? && InWindow(evs[i].at) && Reached(evs, i)
    ensures var t := evs[i].at;
      var p := PreviousMonth(t.date.year, t.date.month);
      exists j :: 0 <= j < |Run(startUp, evs)| && Run(startUp, evs)[j] == Generation(t, p.0, p.1)
    decreases i
  {
    var t := evs[i].at;
    var p := PreviousMonth(t.date.year, t.date.month);
    assert evs[0].Wake?;
    var d := Step(startUp, evs[0].at);
    var head := if d.generate then [Generation(evs[0].at, d.year, d.month)] else [];
    var tail := Run(d.startUp, evs[1..]);
    assert Run(startUp, evs) == head + tail;
    if i == 0 {
      assert Run(startUp, evs)[0] == Generation(t, p.0, p.1);
    } else {
      assert Reached(evs[1..], i - 1) by {
        forall k | 0 <= k < i - 1 ensures evs[1..][k].Wake? {
          assert evs[1..][k] == evs[k + 1];
        }
      }
      WindowWakeGenerates(d.startUp, evs[1..], i - 1);
      var j :| 0 <= j < |tail| && tail[j] == Generation(t, p.0, p.1);
      assert Run(startUp, evs)[|head| + j] == tail[j];
    }
  }

  /** Every report comes from a wake-up the loop reached: one inside the
      window, or the first event of a process that has just started. */
  lemma {:induction false} GenerationsAreWakes(startUp: bool, evs: seq<Event>, j: int)
    requires 0 <= j < |Run(startUp, evs)|
    ensures var g := Run(startUp, evs)[j];
      exists i :: 0 <= i < |evs| && evs[i] == Wake(g.at) && Reached(evs, i)
        && (InWindow(g.at) || (i == 0 && startUp))
    decreases |evs|
  {
    var g := Run(startUp, evs)[j];
    assert evs[0].Wake?;
    var d := Step(startUp, evs[0].at);
    var head := if d.generate then [Generation(evs[0].at, d.year, d.month)] else [];
    var tail := Run(d.startUp, evs[1..]);
    assert Run(startUp, evs) == head + tail;
    if j < |head| {
      assert g.at == evs[0].at && Reached(evs, 0);
    } else {
      GenerationsAreWakes(d.startUp, evs[1..], j - |head|);
      assert g == tail[j - |head|];
      var i :| 0 <= i < |evs[1..]| && evs[1..][i] == Wake(g.at) && Reached(evs[1..], i)
        && (InWindow(g.at) || (i == 0 && d.startUp));
      assert evs[i + 1] == Wake(g.at);
      assert InWindow(g.at);
      assert Reached(evs, i + 1) by {
        forall k | 0 <= k < i + 1 ensures evs[k].Wake? {
          if k > 0 { assert evs[k] == evs[1..][k - 1]; }
        }
      }
    }
  }

  /** Every two wake-ups are at least an hour apart, as the one-hour sleep
      after each iteration guarantees. */
  predicate WellSpaced(evs: seq<Event>) {
    forall i, j :: 0 <= i < j < |evs| && evs[i].Wake? && evs[j].Wake? ==>
      Instant(evs[i].at) + 60 <= Instant(evs[j].at)
  }

  predicate WakesFrom(evs: seq<Event>, lo: int) {
    forall i :: 0 <= i < |evs| && evs[i].Wake? ==> lo <= Instant(evs[i].at)
  }

  lemma {:induction false} RunFrom(startUp: bool, evs: seq<Event>, lo: int)
    requires WakesFrom(evs, lo)
    ensures forall j :: 0 <= j < |Run(startUp, evs)| ==> lo <= Instant(Run(startUp, evs)[j].at)
    decreases |evs|
  {
    if evs != [] && evs[0].Wake? {
      var rest := evs[1..];
      assert WakesFrom(rest, lo) by {
        forall i | 0 <= i < |rest| && rest[i].Wake? ensures lo <= Instant(rest[i].at) {
          assert rest[i] == evs[i + 1];
        }
      }
      RunFrom(Step(startUp, evs[0].at).startUp, rest, lo);
    }
  }

  /** A window wake-up lies at most 58 minutes after the start of its month,
      so it is less than an hour after any instant of the same month. */
  lemma SameMonthBound(t: DateTime, u: DateTime)
    requires InWindow(u)
    ensures (t.date.year, t.date.month) == (u.date.year, u.date.month) ==> Instant(u) <= Instant(t) + 58
  {
    if (t.date.year, t.date.month) == (u.date.year, u.date.month) {
      assert Ordinal(t.date) - Ordinal(u.date) == t.date.day - 1;
    }
  }

  /** A window wake-up at least an hour after `t` lies in a later month than `t`. */
  lemma WindowLaterMonth(t: DateTime, u: DateTime)
    requires InWindow(u) && Instant(t) + 60 <= Instant(u)
    ensures (t.date.year, t.date.month) != (u.date.year, u.date.month)
  {
    SameMonthBound(t, u);
  }

  /** Dropping the first event keeps the spacing, and every later wake-up is
      at least an hour after the first one. */
  lemma TailSpacing(evs: seq<Event>)
    requires WellSpaced(evs) && evs != [] && evs[0].Wake?
    ensures WellSpaced(evs[1..])
    ensures WakesFrom(evs[1..], Instant(evs[0].at) + 60)
  {
    var rest := evs[1..];
    forall i, j | 0 <= i < j < |rest| && rest[i].Wake? && rest[j].Wake?
      ensures Instant(rest[i].at) + 60 <= Instant(rest[j].at)
    {
      assert rest[i] == evs[i + 1] && rest[j] == evs[j + 1];
    }
    forall i | 0 <= i < |rest| && rest[i].Wake? ensures Instant(evs[0].at) + 60 <= Instant(rest[i].at) {
      assert rest[i] == evs[i + 1];
    }
  }

  predicate MonthsDistinct(gs: seq<Generation>) {
    forall i, j :: 0 <= i < j < |gs| ==>
      (gs[i].at.date.year, gs[i].at.date.month) != (gs[j].at.date.year, gs[j].at.date.month)
  }

  /** Within one process, no two reports are generated in the same calendar
      month: a second run inside one window is impossible. */
  lemma {:induction false} DistinctMonths(startUp: bool, evs: seq<Event>)
    requires WellSpaced(evs)
    ensures MonthsDistinct(Run(startUp, evs))
    decreases |evs|
  {
    if evs != [] && evs[0].Wake? {
      var t := evs[0].at;
      var rest := evs[1..];
      var d := Step(startUp, t);
      TailSpacing(evs);
      DistinctMonths(d.startUp, rest);
      RunFrom(d.startUp, rest, Instant(t) + 60);
      var tail := Run(d.startUp, rest);
      if d.generate {
        var g := Generation(t, d.year, d.month);
        forall j | 0 <= j < |tail|
          ensures (t.date.year, t.date.month) != (tail[j].at.date.year, tail[j].at.date.month)
        {
          WindowLaterMonth(t, tail[j].at);
        }
        ConsDistinct(g, tail);
      }
    }
  }

  lemma ConsDistinct(g: Generation, tail: seq<Generation>)
    requires MonthsDistinct(tail)
    requires forall j :: 0 <= j < |tail| ==>
      (g.at.date.year, g.at.date.month) != (tail[j].at.date.year, tail[j].at.date.month)
    ensures MonthsDistinct([g] + tail)
  {
    var gs := [g] + tail;
    forall i, j | 0 <= i < j < |gs|
      ensures (gs[i].at.date.year, gs[i].at.date.month) != (gs[j].at.date.year, gs[j].at.date.month)
    {
      assert gs[j] == tail[j - 1];
      if i > 0 {
        assert gs[i] == tail[i - 1];
      }
    }
  }

  /** Two generations with the same period were generated in the same month. */
  lemma PeriodDeterminesMonth(g1: Generation, g2: Generation)
    requires PeriodOf(g1) && PeriodOf(g2)
    ensures (g1.year, g1.month) == (g2.year, g2.month) ==>
      (g1.at.date.year, g1.at.date.month) == (g2.at.date.year, g2.at.date.month)
  {
    MonthIndexInjective(g1.at.date.year, g1.at.date.month, g2.at.date.year, g2.at.date.month);
  }

  /** Distinct generation months mean distinct report periods. */
  lemma DistinctPeriods(startUp: bool, evs: seq<Event>)
    requires WellSpaced(evs)
    ensures var gs := Run(startUp, evs);
      forall i, j :: 0 <= i < j < |gs| ==> (gs[i].year, gs[i].month) != (gs[j].year, gs[j].month)
  {
    DistinctMonths(startUp, evs);
    var gs := Run(startUp, evs);
    forall i, j | 0 <= i < j < |gs|
      ensures (gs[i].year, gs[i].month) != (gs[j].year, gs[j].month)
    {
      PeriodDeterminesMonth(gs[i], gs[j]);
    }
  }

  /** `year * 12 + month` numbers the months one after another. */
  lemma MonthIndexInjective(y1: int, m1: int, y2: int, m2: int)
    requires 1 <= m1 <= 12 && 1 <= m2 <= 12
    ensures y1 * 12 + m1 == y2 * 12 + m2 ==> y1 == y2 && m1 == m2
  {
  }

  /** Each process start fires `startUp` again, so restarting the server in
      the same month regenerates that month's report. */
  lemma RestartRegenerates(t1: DateTime, t2: DateTime)
    requires t1.date.year == t2.date.year && t1.date.month == t2.date.month
    ensures |Run(true, [Wake(t1)])| == 1 && |Run(true, [Wake(t2)])| == 1
    ensures Run(true, [Wake(t1)])[0].year == Run(true, [Wake(t2)])[0].year
    ensures Run(true, [Wake(t1)])[0].month == Run(true, [Wake(t2)])[0].month
  {
  }

  /** Hourly wake-ups can drift past the window: one at 23:59 on 31 January
      and the next at 00:59 on 1 February generate nothing, so the January
      report is never produced. */
  lemma DriftSkipsWindow()
    ensures var jan31 := DateTime(CalendarDate(2025, 1, 31), 23 * 60 + 59);
      var feb1 := DateTime(CalendarDate(2025, 2, 1), 59);
      Instant(jan31) + 60 == Instant(feb1)
      && WellSpaced([Wake(jan31), Wake(feb1)])
      && Run(false, [Wake(jan31), Wake(feb1)]) == []
  {
    var jan31 := DateTime(CalendarDate(2025, 1, 31), 23 * 60 + 59);
    var feb1 := DateTime(CalendarDate(2025, 2, 1), 59);
    assert Ordinal(feb1.date) == Ordinal(jan31.date) + 1;
    assert [Wake(jan31), Wake(feb1)][1..] == [Wake(feb1)];
  }

  // ---------------------------------------------------------------------
  // The report file name
  // ---------------------------------------------------------------------

  const ReportPrefix: string := "MonthlyReport_"
  const ReportSuffix: string := ".pdf"

  /** `"MonthlyReport_" + reportMonth + "_" + reportYear + ".pdf"`: the
      prefix, the month's name in capitals, an underscore, the year in decimal
      and the extension, in that order. */
  function ReportFileName(year: int, month: int): (s: string)
    requires 1 <= month <= 12
    ensures var n, y, p := MonthName(month), IntToString(year), |ReportPrefix|;
      && |s| == p + |n| + 1 + |y| + |ReportSuffix|
      && s[..p] == ReportPrefix
      && s[p..p + |n|] == n
      && s[p + |n|] == '_'
      && s[p + |n| + 1..|s| - |ReportSuffix|] == y
      && s[|s| - |ReportSuffix|..] == ReportSuffix
  {
    var n, y := MonthName(month), IntToString(year);
    FieldSlices(ReportPrefix, n, "_", y, ReportSuffix);
    ReportPrefix + n + "_" + y + ReportSuffix
  }

  /** Where each of five concatenated fields lies in the whole. */
  lemma FieldSlices(a: string, b: string, c: string, d: string, e: string)
    ensures var s := a + b + c + d + e;
      && |s| == |a| + |b| + |c| + |d| + |e|
      && s[..|a|] == a
      && s[|a|..|a| + |b|] == b
      && s[|a| + |b|..|a| + |b| + |c|] == c
      && s[|a| + |b| + |c|..|s| - |e|] == d
      && s[|s| - |e|..] == e
  {
    var s := a + b + c + d + e;
    var p := |a|;
    assert s == a + (b + (c + (d + e)));
    assert s[p..] == b + (c + (d + e));
    assert s[p + |b|..] == c + (d + e);
    assert s[p + |b| + |c|..] == d + e;
  }

  /** The file saved under the `reports` directory. */
  function ReportPath(year: int, month: int): (s: string)
    requires 1 <= month <= 12
    ensures |s| > 8 && s[..8] == "reports/" && s[8..] == ReportFileName(year, month)
  {
    "reports/" + ReportFileName(year, month)
  }

  /** The file the admin screen opens for the month and year picked in its
      combo boxes: `new File("reports/", "MonthlyReport_" + month + "_" + year
      + ".pdf")`, where the month prints as its enum name. */
  function AdminReportPath(pickedMonth: int, pickedYear: int): string
    requires 1 <= pickedMonth <= 12
  {
    "reports/" + "MonthlyReport_" + MonthName(pickedMonth) + "_" + IntToString(pickedYear) + ".pdf"
  }

  /** The admin screen finds the report the scheduler wrote for the period it
      asks for, and only that one. */
  lemma AdminFindsReport(y: int, m: int, pickedYear: int, pickedMonth: int)
    requires 1 <= m <= 12 && 1 <= pickedMonth <= 12
    ensures AdminReportPath(pickedMonth, pickedYear) == ReportPath(y, m) <==> pickedYear == y && pickedMonth == m
  {
    var n, x := MonthName(pickedMonth), IntToString(pickedYear);
    Assoc5("reports/", ReportPrefix, n, "_", x, ReportSuffix);
    assert AdminReportPath(pickedMonth, pickedYear) == ReportPath(pickedYear, pickedMonth);
    if AdminReportPath(pickedMonth, pickedYear) == ReportPath(y, m) {
      assert ReportFileName(pickedYear, pickedMonth) == ReportPath(y, m)[8..];
      ReportFileNameInjective(pickedYear, pickedMonth, y, m);
    }
  }

  lemma Assoc5(r: string, a: string, b: string, c: string, d: string, e: string)
    ensures r + a + b + c + d + e == r + (a + b + c + d + e)
  {
  }

  /** Text split at its first '_': equal texts with '_'-free heads have equal
      heads and equal tails. */
  lemma UnderscoreSplit(a: string, b: string, x: string, y: string)
    requires forall i :: 0 <= i < |a| ==> a[i] != '_'
    requires forall i :: 0 <= i < |b| ==> b[i] != '_'
    requires a + "_" + x == b + "_" + y
    ensures a == b && x == y
  {
    var s, t := a + "_" + x, b + "_" + y;
    assert s[|a|] == '_' && t[|b|] == '_';
    assert forall i :: 0 <= i < |a| ==> s[i] == a[i];
    assert forall i :: 0 <= i < |b| ==> t[i] == b[i];
    assert |a| == |b|;
    assert a == s[..|a|] && b == t[..|b|];
    assert x == s[|a| + 1..] && y == t[|b| + 1..];
  }

  /** Different periods never share a file name, so one period's report never
      overwrites another's. */
  lemma ReportFileNameInjective(y1: int, m1: int, y2: int, m2: int)
    requires 1 <= m1 <= 12 && 1 <= m2 <= 12
    requires ReportFileName(y1, m1) == ReportFileName(y2, m2)
    ensures y1 == y2 && m1 == m2
  {
    var x1, x2 := IntToString(y1), IntToString(y2);
    FileNameShape(y1, m1);
    FileNameShape(y2, m2);
    CancelPrefix(ReportPrefix, MonthName(m1) + "_" + (x1 + ReportSuffix), MonthName(m2) + "_" + (x2 + ReportSuffix));
    UnderscoreSplit(MonthName(m1), MonthName(m2), x1 + ReportSuffix, x2 + ReportSuffix);
    MonthNameInjective(m1, m2);
    CancelSuffix(x1, x2, ReportSuffix);
    IntToStringInjective(y1, y2);
  }

  lemma FileNameShape(y: int, m: int)
    requires 1 <= m <= 12
    ensures ReportFileName(y, m) == ReportPrefix + (MonthName(m) + "_" + (IntToString(y) + ReportSuffix))
  {
    var n, x := MonthName(m), IntToString(y);
    Assoc4(ReportPrefix, n, "_", x, ReportSuffix);
  }

  lemma Assoc4(a: string, b: string, c: string, d: string, e: string)
    ensures a + b + c + d + e == a + (b + c + (d + e))
  {
  }

  lemma CancelPrefix(p: string, a: string, b: string)
    requires p + a == p + b
    ensures a == b
  {
    assert a == (p + a)[|p|..];
    assert b == (p + b)[|p|..];
  }

  lemma CancelSuffix(a: string, b: string, q: string)
    requires a + q == b + q
    ensures a == b
  {
    assert a == (a + q)[..|a|];
    assert b == (b + q)[..|b|];
  }
}
