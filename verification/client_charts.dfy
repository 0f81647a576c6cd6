/** The counting behind the three client report screens:
    `ReportReservationController` (used and canceled reservations per day of
    one month), `ReportSubscriberController` (one subscriber's sessions per
    month of one year) and `ReportActiveSessionsController` (active sessions
    per hour of entry). A chart is its list of series; each series is its
    name and its points in order. */
module ClientCharts {
  import opened Wrappers
  import opened Text
  import opened Calendar
  import opened Counting
  import opened Reservations
  import opened Entities
  import opened MonthlyReport
  import opened Views

  datatype Series<X> = Series(name: string, points: seq<(X, nat)>)

  datatype Chart<X> = Chart(title: string, series: seq<Series<X>>)

  // ---------------------------------------------------------------------
  // ReportReservationController
  // ---------------------------------------------------------------------

  /** The client counts a reservation as used only when both times are set;
      a live reservation with no end time counts as neither. */
  predicate CountsAsUsed(r: Reservation) {
    r.startTime.Some? && r.endTime.Some?
  }

  function UsedFn(): Reservation -> bool { r => CountsAsUsed(r) }

  function CanceledFn(): Reservation -> bool { r => IsCanceled(r) }

  function LiveFn(): Reservation -> bool { r => !IsCanceled(r) }

  function UsedIn(year: int, month: int): Reservation -> bool {
    r => ReservationInPeriod(r, year, month) && CountsAsUsed(r)
  }

  function CanceledIn(year: int, month: int): Reservation -> bool {
    r => ReservationInPeriod(r, year, month) && IsCanceled(r)
  }

  function ReservationDays(rs: seq<Reservation>): (ds: seq<int>)
    ensures |ds| == |rs| && forall i :: 0 <= i < |rs| ==> ds[i] == rs[i].date.day
  {
    seq(|rs|, i requires 0 <= i < |rs| => rs[i].date.day)
  }

  /** The two zero-filled day maps of `updateBarChart`. */
  datatype DailyCounts = DailyCounts(days: seq<int>, used: seq<nat>, canceled: seq<nat>)

  /** Every reservation of the month falls on a day of the month. */
  lemma DaysCovered(rs: seq<Reservation>, year: int, month: int)
    requires 1 <= month <= 12
    requires forall i :: 0 <= i < |rs| ==> ReservationInPeriod(rs[i], year, month)
    ensures var keys := Range(1, DaysInMonth(year, month) + 1);
      Sum(Histogram(keys, ReservationDays(rs))) == |rs|
  {
    var keys := Range(1, DaysInMonth(year, month) + 1);
    var days := ReservationDays(rs);
    RangeAscending(1, DaysInMonth(year, month) + 1);
    forall i | 0 <= i < |days| ensures days[i] in keys {
      assert 1 <= days[i] <= DaysInMonth(year, month);
    }
    SumHistogramCovering(keys, days);
  }

  /** Days 1..lengthOfMonth in order, each with the number of the month's
      used and canceled reservations dated on it. */
  function CountDays(rs: seq<Reservation>, year: int, month: int): (d: DailyCounts)
    requires 1 <= month <= 12
    ensures d.days == Range(1, DaysInMonth(year, month) + 1)
    ensures |d.used| == |d.days| && |d.canceled| == |d.days|
    ensures forall i :: 0 <= i < |d.days| ==>
      d.used[i] == Occ(ReservationDays(Filter(rs, UsedIn(year, month))), d.days[i])
      && d.canceled[i] == Occ(ReservationDays(Filter(rs, CanceledIn(year, month))), d.days[i])
    ensures Sum(d.used) == |Filter(rs, UsedIn(year, month))|
    ensures Sum(d.canceled) == |Filter(rs, CanceledIn(year, month))|
  {
    var keys := Range(1, DaysInMonth(year, month) + 1);
    var used := Filter(rs, UsedIn(year, month));
    var canceled := Filter(rs, CanceledIn(year, month));
    DaysCovered(used, year, month);
    DaysCovered(canceled, year, month);
    DailyCounts(keys, Histogram(keys, ReservationDays(used)), Histogram(keys, ReservationDays(canceled)))
  }

  /** The client's two totals against the server's pie chart for the same
      month: the canceled totals agree, the client's used total is at most
      the server's, and they agree exactly when every live reservation of the
      month has an end time. */
  lemma AgreesWithServerReport(rs: seq<Reservation>, year: int, month: int)
    requires 1 <= month <= 12
    ensures var d := CountDays(rs, year, month);
      var period := ReservationsOfPeriod(rs, year, month);
      var server := UsedCanceled(period);
      Sum(d.canceled) == server.canceled
      && Sum(d.used) <= server.used
      && (Sum(d.used) == server.used <==>
          forall i :: 0 <= i < |period| && !IsCanceled(period[i]) ==> period[i].endTime.Some?)
  {
    var period := ReservationsOfPeriod(rs, year, month);
    FilterThen(rs, ReservationPeriod(year, month), UsedFn(), UsedIn(year, month));
    FilterThen(rs, ReservationPeriod(year, month), CanceledFn(), CanceledIn(year, month));
    assert Filter(period, CanceledFn()) == Filter(period, IsCanceled) by {
      FilterSamePredicate(period, CanceledFn(), IsCanceled);
    }
    FilterPartition(period, CanceledFn(), LiveFn());
    FilterMonotone(period, UsedFn(), LiveFn());
  }

  /** Two predicates that agree everywhere filter alike. */
  lemma {:induction false} FilterSamePredicate<T>(xs: seq<T>, p: T -> bool, q: T -> bool)
    requires forall x :: p(x) == q(x)
    ensures Filter(xs, p) == Filter(xs, q)
  {
    if xs != [] {
      FilterSamePredicate(xs[1..], p, q);
    }
  }

  /** Used plus canceled never exceeds the month's reservations. */
  lemma CountsWithinMonth(rs: seq<Reservation>, year: int, month: int)
    requires 1 <= month <= 12
    ensures var d := CountDays(rs, year, month);
      Sum(d.used) + Sum(d.canceled) <= |ReservationsOfPeriod(rs, year, month)|
  {
    AgreesWithServerReport(rs, year, month);
    var server := UsedCanceled(ReservationsOfPeriod(rs, year, month));
    assert server.used + server.canceled == |ReservationsOfPeriod(rs, year, month)|;
  }

  const NoSelectionTitle := "Select a specific month and year to see daily reservation counts"

  /** `String.valueOf` of a possibly null value, as string concatenation
      renders it. */
  function ShowText(o: Option<string>): string {
    match o
    case None => "null"
    case Some(s) => s
  }

  function ShowYear(o: Option<int>): string {
    match o
    case None => "null"
    case Some(y) => IntToString(y)
  }

  /** Whether the month and year boxes name one month. */
  predicate MonthSelected(month: Option<string>, year: Option<int>) {
    month.Some? && month.value != "All" && year.Some? && year.value != 0
  }

  function DayPoints(keys: seq<int>, counts: seq<nat>): (ps: seq<(string, nat)>)
    requires |keys| == |counts| && forall i :: 0 <= i < |keys| ==> keys[i] >= 0
    ensures |ps| == |keys|
    ensures forall i :: 0 <= i < |keys| ==> ps[i] == (NatToString(keys[i]), counts[i])
  {
    seq(|keys|, i requires 0 <= i < |keys| => (NatToString(keys[i]), counts[i]))
  }

  /** `updateBarChart`. `monthIndex` is the selected label's position in the
      parent screen's month list (January at 1); `filtered` is that screen's
      filtered list, possibly null. */
  function ReservationChart(month: Option<string>, year: Option<int>, monthIndex: int,
                            filtered: Option<seq<Reservation>>): (c: Chart<string>)
    requires MonthSelected(month, year) ==> 1 <= monthIndex <= 12
    ensures c.series == [] <==> !MonthSelected(month, year)
    ensures c.series == [] ==> c.title == NoSelectionTitle
    ensures MonthSelected(month, year) ==>
      var d := CountDays(filtered.GetOr([]), year.value, monthIndex);
      && c.title == "Reservations in " + month.value + " " + IntToString(year.value)
      && |c.series| == 2
      && c.series[0].name == "Used Reservations" && c.series[1].name == "Canceled Reservations"
      && |c.series[0].points| == |c.series[1].points| == DaysInMonth(year.value, monthIndex)
      && (forall i :: 0 <= i < |c.series[0].points| ==>
            c.series[0].points[i] == (NatToString(i + 1), d.used[i])
            && c.series[1].points[i] == (NatToString(i + 1), d.canceled[i]))
  {
    if !MonthSelected(month, year) then Chart(NoSelectionTitle, [])
    else
      DailyChart("Reservations in " + month.value + " " + IntToString(year.value),
                 CountDays(filtered.GetOr([]), year.value, monthIndex))
  }

  /** The two bar series of a month's daily counts, labelled by day number. */
  function DailyChart(title: string, d: DailyCounts): (c: Chart<string>)
    requires |d.used| == |d.days| && |d.canceled| == |d.days|
    requires forall i :: 0 <= i < |d.days| ==> d.days[i] == i + 1
    ensures c.title == title && |c.series| == 2
    ensures c.series[0].name == "Used Reservations" && c.series[1].name == "Canceled Reservations"
    ensures |c.series[0].points| == |c.series[1].points| == |d.days|
    ensures forall i :: 0 <= i < |d.days| ==>
      c.series[0].points[i] == (NatToString(i + 1), d.used[i])
      && c.series[1].points[i] == (NatToString(i + 1), d.canceled[i])
  {
    Chart(title, [Series("Used Reservations", DayPoints(d.days, d.used)),
                  Series("Canceled Reservations", DayPoints(d.days, d.canceled))])
  }

  /** The names the CSV export writes and the PDF button later looks for:
      both carry the same `<month>_<year>` tag. */
  function ExportTag(month: Option<string>, year: Option<int>): string {
    ShowText(month) + "_" + ShowYear(year)
  }

  function CsvPath(tag: string): string { "reports/" + "ReservationsReport_" + tag + ".csv" }

  function PngPath(tag: string): string { "reports/" + "ReservationsChart_" + tag + ".png" }

  /** The parts of a `reports/<stem><tag><ext>` path. */
  lemma TaggedPath(stem: string, tag: string, ext: string)
    requires |ext| == 4
    ensures var f := "reports/" + stem + tag + ext;
      |f| >= 12 + |tag| && f[..8] == "reports/" && f[|f| - 4 - |tag|..|f| - 4] == tag && f[|f| - 4..] == ext
  {
    var f := "reports/" + stem + tag + ext;
    assert f == ("reports/" + stem) + tag + ext;
  }

  /** The export's two files: a table and a chart image, both in `reports`
      and both named with the selection's tag just before the extension. */
  function ExportFiles(month: Option<string>, year: Option<int>): (files: set<string>)
    ensures var tag := ExportTag(month, year);
      && |files| == 2
      && (forall f :: f in files ==>
            |f| >= 12 + |tag| && f[..8] == "reports/" && f[|f| - 4 - |tag|..|f| - 4] == tag)
      && (exists f :: f in files && |f| >= 4 && f[|f| - 4..] == ".csv")
      && (exists f :: f in files && |f| >= 4 && f[|f| - 4..] == ".png")
  {
    var tag := ExportTag(month, year);
    var c, g := CsvPath(tag), PngPath(tag);
    TaggedPath("ReservationsReport_", tag, ".csv");
    TaggedPath("ReservationsChart_", tag, ".png");
    assert c[|c| - 1] != g[|g| - 1];
    {c, g}
  }

  /** The PDF button: the request, carrying the tag, is sent only when both
      exported files exist. */
  function PdfRequest(month: Option<string>, year: Option<int>, existing: set<string>): (req: Option<string>)
    ensures req.Some? <==> ExportFiles(month, year) <= existing
    ensures req.Some? ==> req.value == ExportTag(month, year)
  {
    var tag := ExportTag(month, year);
    if CsvPath(tag) in existing && PngPath(tag) in existing then Some(tag) else None
  }

  /** Exporting first, then asking for the PDF of the same selection, sends
      the request; asking with nothing exported sends nothing. */
  lemma ExportThenPdf(month: Option<string>, year: Option<int>, existing: set<string>)
    ensures PdfRequest(month, year, existing + ExportFiles(month, year)) == Some(ExportTag(month, year))
    ensures PdfRequest(month, year, {}) == None
  {
  }

  /** One used and one canceled reservation on 5 March 2024: the fifth day's
      bars are one and one, every other day is zero, and the server's pie
      chart for the month agrees. */
  lemma MarchFifthScenario(used: Reservation, canceled: Reservation)
    requires used.date == CalendarDate(2024, 3, 5) && canceled.date == CalendarDate(2024, 3, 5)
    requires used.startTime.Some? && used.endTime.Some? && canceled.startTime.None?
    ensures var d := CountDays([used, canceled], 2024, 3);
      |d.days| == 31 && d.used[4] == 1 && d.canceled[4] == 1
      && (forall i :: 0 <= i < 31 && i != 4 ==> d.used[i] == 0 && d.canceled[i] == 0)
    ensures UsedCanceled(ReservationsOfPeriod([used, canceled], 2024, 3)) == Split(1, 1)
  {
    var rs := [used, canceled];
    assert rs[1..] == [canceled];
    assert Filter(rs, UsedIn(2024, 3)) == [used];
    assert Filter(rs, CanceledIn(2024, 3)) == [canceled];
    assert ReservationsOfPeriod(rs, 2024, 3) == rs;
    var d := CountDays(rs, 2024, 3);
    forall i | 0 <= i < 31
      ensures d.used[i] == (if i == 4 then 1 else 0) && d.canceled[i] == (if i == 4 then 1 else 0)
    {
      assert d.days[i] == i + 1;
      assert ReservationDays([used]) == [5];
      assert ReservationDays([canceled]) == [5];
      assert [5][1..] == [];
    }
  }

  // ---------------------------------------------------------------------
  // ReportSubscriberController
  // ---------------------------------------------------------------------

  function MonthsOf(ss: seq<ParkingSession>): (ms: seq<int>)
    ensures |ms| == |ss| && forall i :: 0 <= i < |ss| ==> ms[i] == ss[i].inTime.date.month
  {
    seq(|ss|, i requires 0 <= i < |ss| => ss[i].inTime.date.month)
  }

  /** `int[12] monthly`: bucket `i` counts the sessions of the selected year
      that entered in month `i + 1`; the buckets add up to the history rows
      the table shows for that year. */
  function MonthlyBuckets(sessions: seq<ParkingSession>, year: int): (b: seq<nat>)
    ensures |b| == 12
    ensures forall i :: 0 <= i < 12 ==> b[i] == Occ(MonthsOf(HistoryOfYear(sessions, year)), i + 1)
    ensures Sum(b) == |HistoryOfYear(sessions, year)|
  {
    var keys := Range(1, 13);
    var months := MonthsOf(HistoryOfYear(sessions, year));
    RangeAscending(1, 13);
    forall i | 0 <= i < |months| ensures months[i] in keys {
      assert 1 <= months[i] <= 12;
    }
    SumHistogramCovering(keys, months);
    Histogram(keys, months)
  }

  function ShowId(o: Option<int>): string {
    match o
    case None => "null"
    case Some(i) => IntToString(i)
  }

  /** `updateBarChartForSelectedYear`: the old data is cleared and exactly one
      series is added, with twelve points labelled JANUARY..DECEMBER. */
  function SubscriberChart(sessions: seq<ParkingSession>, year: int, subId: Option<int>): (c: Chart<string>)
    ensures |c.series| == 1
    ensures c.series[0].name == "Sessions Per Month of Sub. ID: " + ShowId(subId)
    ensures |c.series[0].points| == 12
    ensures forall i :: 0 <= i < 12 ==>
      c.series[0].points[i] == (MonthName(i + 1), MonthlyBuckets(sessions, year)[i])
  {
    Chart("", [Series("Sessions Per Month of Sub. ID: " + ShowId(subId), MonthPoints(MonthlyBuckets(sessions, year)))])
  }

  /** Twelve bars labelled with the month names, in calendar order. */
  function MonthPoints(b: seq<nat>): (ps: seq<(string, nat)>)
    requires |b| == 12
    ensures |ps| == 12 && forall i :: 0 <= i < 12 ==> ps[i] == (MonthName(i + 1), b[i])
  {
    seq(12, i requires 0 <= i < 12 => (MonthName(i + 1), b[i]))
  }

  /** A session of the selected year lands in exactly one bucket, the one of
      its month. */
  lemma SessionLandsInItsMonth(s: ParkingSession, sessions: seq<ParkingSession>, year: int)
    requires s.inTime.date.year == year
    ensures forall i :: 0 <= i < 12 ==>
      MonthlyBuckets(sessions + [s], year)[i]
        == MonthlyBuckets(sessions, year)[i] + (if i == s.inTime.date.month - 1 then 1 else 0)
  {
    var h := HistoryOfYear(sessions, year);
    var m := s.inTime.date.month;
    HistoryOfYearSplits(sessions, [s], year);
    assert [s][1..] == [];
    assert HistoryOfYear(sessions + [s], year) == h + [s];
    MonthsOfAppend(h, [s]);
    assert MonthsOf(h + [s]) == MonthsOf(h) + [m];
    forall k | 1 <= k <= 12
      ensures Occ(MonthsOf(h) + [m], k) == Occ(MonthsOf(h), k) + (if m == k then 1 else 0)
    {
      OccAppendOne(MonthsOf(h), m, k);
    }
  }

  /** A session of another year changes no bucket. */
  lemma OtherYearIgnored(s: ParkingSession, sessions: seq<ParkingSession>, year: int)
    requires s.inTime.date.year != year
    ensures MonthlyBuckets(sessions + [s], year) == MonthlyBuckets(sessions, year)
  {
    HistoryOfYearSplits(sessions, [s], year);
    assert [s][1..] == [];
    assert HistoryOfYear([s], year) == [];
    assert HistoryOfYear(sessions + [s], year) == HistoryOfYear(sessions, year);
  }

  lemma MonthsOfAppend(a: seq<ParkingSession>, b: seq<ParkingSession>)
    ensures MonthsOf(a + b) == MonthsOf(a) + MonthsOf(b)
  {
  }

  lemma {:induction false} OccAppendOne(xs: seq<int>, x: int, k: int)
    ensures Occ(xs + [x], k) == Occ(xs, k) + (if x == k then 1 else 0)
  {
    if xs == [] {
      assert xs + [x] == [x];
    } else {
      assert (xs + [x])[1..] == xs[1..] + [x];
      OccAppendOne(xs[1..], x, k);
    }
  }

  // ---------------------------------------------------------------------
  // ReportActiveSessionsController
  // ---------------------------------------------------------------------

  function ActiveFn(): ParkingSession -> bool { (s: ParkingSession) => s.active }

  function HoursOf(ss: seq<ParkingSession>): (hs: seq<int>)
    ensures |hs| == |ss| && forall i :: 0 <= i < |ss| ==> hs[i] == InHour(ss[i])
  {
    seq(|ss|, i requires 0 <= i < |ss| => InHour(ss[i]))
  }

  /** `int[24] hourlyCounts` over the full session list: bucket `h` counts the
      active sessions that entered during hour `h`; inactive sessions are
      never counted. */
  function HourlyCounts(all: seq<ParkingSession>): (b: seq<nat>)
    ensures |b| == 24
    ensures forall h :: 0 <= h < 24 ==> b[h] == Occ(HoursOf(Filter(all, ActiveFn())), h)
    ensures Sum(b) == |Filter(all, ActiveFn())|
  {
    var keys := Range(0, 24);
    var hours := HoursOf(Filter(all, ActiveFn()));
    RangeAscending(0, 24);
    SumHistogramCovering(keys, hours);
    Histogram(keys, hours)
  }

  /** The line chart: one series of 24 points, hours 0..23 in order, with the
      x-axis fixed to 0..23. */
  datatype LineChart = LineChart(series: seq<Series<int>>, lowerBound: int, upperBound: int, tickUnit: int)

  function ActiveChart(all: seq<ParkingSession>): (c: LineChart)
    ensures |c.series| == 1 && c.series[0].name == "Active Sessions by Hour"
    ensures c.lowerBound == 0 && c.upperBound == 23 && c.tickUnit == 1
    ensures |c.series[0].points| == 24
    ensures forall h :: 0 <= h < 24 ==> c.series[0].points[h] == (h, HourlyCounts(all)[h])
  {
    var b := HourlyCounts(all);
    LineChart([Series("Active Sessions by Hour", seq(24, h requires 0 <= h < 24 => (h, b[h])))], 0, 23, 1)
  }

  /** The report screen: the inherited date view plus the line chart. */
  datatype ActiveReport = ActiveReport(view: ActiveView, chart: LineChart)

  /** The overriding `setSessions`: the inherited refilter, then the chart
      drawn from the full list. */
  function ReportSetSessions(r: ActiveReport, sessions: seq<ParkingSession>): (r': ActiveReport)
    ensures r'.view == SetSessions(r.view, Some(sessions))
    ensures r'.chart == ActiveChart(sessions)
  {
    ActiveReport(SetSessions(r.view, Some(sessions)), ActiveChart(sessions))
  }

  /** Picking a date refilters the table but leaves the chart alone. */
  function ReportRefresh(r: ActiveReport, picked: Option<Date>, today: Date): (r': ActiveReport)
    ensures r'.chart == r.chart
    ensures r'.view == Refresh(r.view, picked, today).view
  {
    ActiveReport(Refresh(r.view, picked, today).view, r.chart)
  }

  /** The chart counts the full list, not the rows of the selected day: two
      screens with the same list draw the same chart whatever dates they
      show, and the chart's total can exceed the rows on screen. */
  lemma ChartIgnoresDate(r1: ActiveReport, r2: ActiveReport, sessions: seq<ParkingSession>,
                         picks1: seq<Option<Date>>, picks2: seq<Option<Date>>, today: Date)
    ensures ReportRefreshAll(ReportSetSessions(r1, sessions), picks1, today).chart
         == ReportRefreshAll(ReportSetSessions(r2, sessions), picks2, today).chart
    ensures ReportRefreshAll(ReportSetSessions(r1, sessions), picks1, today).chart == ActiveChart(sessions)
  {
    RefreshKeepsChart(ReportSetSessions(r1, sessions), picks1, today);
    RefreshKeepsChart(ReportSetSessions(r2, sessions), picks2, today);
  }

  function ReportRefreshAll(r: ActiveReport, picks: seq<Option<Date>>, today: Date): ActiveReport
    decreases |picks|
  {
    if picks == [] then r else ReportRefreshAll(ReportRefresh(r, picks[0], today), picks[1..], today)
  }

  lemma {:induction false} RefreshKeepsChart(r: ActiveReport, picks: seq<Option<Date>>, today: Date)
    ensures ReportRefreshAll(r, picks, today).chart == r.chart
    decreases |picks|
  {
    if picks != [] {
      RefreshKeepsChart(ReportRefresh(r, picks[0], today), picks[1..], today);
    }
  }

  /** An active session that entered at hour `h` adds one to bucket `h` and
      nothing elsewhere; an inactive one changes nothing. */
  lemma ActiveSessionLandsInItsHour(all: seq<ParkingSession>, s: ParkingSession)
    ensures s.active ==>
      HourlyCounts(all + [s])[InHour(s)] == HourlyCounts(all)[InHour(s)] + 1
      && forall h :: 0 <= h < 24 && h != InHour(s) ==> HourlyCounts(all + [s])[h] == HourlyCounts(all)[h]
    ensures !s.active ==> HourlyCounts(all + [s]) == HourlyCounts(all)
  {
    FilterAppend(all, [s], ActiveFn());
    assert [s][1..] == [];
    var act := Filter(all, ActiveFn());
    if s.active {
      assert Filter(all + [s], ActiveFn()) == act + [s];
      assert HoursOf(act + [s]) == HoursOf(act) + [InHour(s)];
      forall h | 0 <= h < 24 {
        OccAppendOne(HoursOf(act), InHour(s), h);
      }
    } else {
      assert Filter(all + [s], ActiveFn()) == act + [];
      assert act + [] == act;
    }
  }
}
