/** The server's monthly report (`MonthlyReport.getPDF`): fetch the four
    collections, keep the sessions and reservations of the period, compute the
    four chart aggregates and lay out four sections. The PDF itself is an
    abstract document: a title and a list of sections, each either the
    "No data available." note or a table with its chart data. */
module MonthlyReport {
  import opened Wrappers
  import opened Text
  import opened Calendar
  import opened Counting
  import opened Reservations
  import opened Entities
  import Expiry

  // ---------------------------------------------------------------------
  // Filtering by period
  // ---------------------------------------------------------------------

  predicate SessionInPeriod(s: ParkingSession, year: int, month: int) {
    s.inTime.date.year == year && s.inTime.date.month == month
  }

  predicate ReservationInPeriod(r: Reservation, year: int, month: int) {
    r.date.year == year && r.date.month == month
  }

  /** The period tests as values, so that every filter by period uses the
      same function. */
  function SessionPeriod(year: int, month: int): ParkingSession -> bool {
    s => SessionInPeriod(s, year, month)
  }

  function ReservationPeriod(year: int, month: int): Reservation -> bool {
    r => ReservationInPeriod(r, year, month)
  }

  function SessionsOfPeriod(ss: seq<ParkingSession>, year: int, month: int): (r: seq<ParkingSession>)
    ensures forall i :: 0 <= i < |r| ==> SessionInPeriod(r[i], year, month) && r[i] in ss
    ensures forall i :: 0 <= i < |ss| && SessionInPeriod(ss[i], year, month) ==> ss[i] in r
  {
    Filter(ss, SessionPeriod(year, month))
  }

  function ReservationsOfPeriod(rs: seq<Reservation>, year: int, month: int): (r: seq<Reservation>)
    ensures forall i :: 0 <= i < |r| ==> ReservationInPeriod(r[i], year, month) && r[i] in rs
    ensures forall i :: 0 <= i < |rs| && ReservationInPeriod(rs[i], year, month) ==> rs[i] in r
  {
    Filter(rs, ReservationPeriod(year, month))
  }

  // ---------------------------------------------------------------------
  // The four aggregates
  // ---------------------------------------------------------------------

  function DaysOf(ss: seq<ParkingSession>): (ds: seq<int>)
    ensures |ds| == |ss| && forall i :: 0 <= i < |ss| ==> ds[i] == ss[i].inTime.date.day
  {
    seq(|ss|, i requires 0 <= i < |ss| => ss[i].inTime.date.day)
  }

  function Pair(keys: seq<int>, counts: seq<nat>): (r: seq<(int, nat)>)
    requires |keys| == |counts|
    ensures KeysOf(r) == keys && CountsOf(r) == counts
  {
    var r := seq(|keys|, i requires 0 <= i < |keys| => (keys[i], counts[i]));
    assert KeysOf(r) == keys;
    assert CountsOf(r) == counts;
    r
  }

  /** `createSessionsPerDayChartFX`: days 1..lengthOfMonth, each with the
      number of sessions of the period that entered on it; the counts add up
      to the number of sessions of the period. */
  function SessionsPerDay(sessions: seq<ParkingSession>, year: int, month: int): (r: seq<(int, nat)>)
    requires 1 <= month <= 12
    ensures KeysOf(r) == Range(1, DaysInMonth(year, month) + 1)
    ensures forall i :: 0 <= i < |r| ==> r[i].1 == Occ(DaysOf(SessionsOfPeriod(sessions, year, month)), i + 1)
    ensures Sum(CountsOf(r)) == |SessionsOfPeriod(sessions, year, month)|
  {
    var keys := Range(1, DaysInMonth(year, month) + 1);
    var days := DaysOf(SessionsOfPeriod(sessions, year, month));
    DaysOfPeriodCovered(sessions, year, month);
    Pair(keys, Histogram(keys, days))
  }

  /** Every session of the period entered on a day of the month, so no
      session falls outside the zero-filled keys. */
  lemma DaysOfPeriodCovered(sessions: seq<ParkingSession>, year: int, month: int)
    requires 1 <= month <= 12
    ensures var keys := Range(1, DaysInMonth(year, month) + 1);
      Sum(Histogram(keys, DaysOf(SessionsOfPeriod(sessions, year, month))))
        == |SessionsOfPeriod(sessions, year, month)|
  {
    var keys := Range(1, DaysInMonth(year, month) + 1);
    var days := DaysOf(SessionsOfPeriod(sessions, year, month));
    RangeAscending(1, DaysInMonth(year, month) + 1);
    assert Distinct(keys);
    forall i | 0 <= i < |days| ensures days[i] in keys {
      assert 1 <= days[i] <= DaysInMonth(year, month);
    }
    SumHistogramCovering(keys, days);
  }

  datatype Split = Split(used: nat, canceled: nat)

  /** `createReservationsPieChartFX`: a reservation with a null start time is
      canceled, any other one is used. */
  function UsedCanceled(rs: seq<Reservation>): (r: Split)
    ensures r.used + r.canceled == |rs|
    ensures r.canceled == |Filter(rs, IsCanceled)|
    ensures r.used == 0 <==> forall i :: 0 <= i < |rs| ==> IsCanceled(rs[i])
    ensures r.canceled == 0 <==> forall i :: 0 <= i < |rs| ==> !IsCanceled(rs[i])
  {
    if rs == [] then Split(0, 0)
    else
      var rest := UsedCanceled(rs[1..]);
      assert forall i :: 1 <= i < |rs| ==> rs[i] == rs[1..][i - 1];
      if IsCanceled(rs[0]) then Split(rest.used, rest.canceled + 1)
      else Split(rest.used + 1, rest.canceled)
  }

  function SpotIdsOfSpots(spots: seq<ParkingSpot>): (ids: seq<int>)
    ensures |ids| == |spots| && forall i :: 0 <= i < |spots| ==> ids[i] == spots[i].spotId
  {
    seq(|spots|, i requires 0 <= i < |spots| => spots[i].spotId)
  }

  function SpotIdsOfSessions(ss: seq<ParkingSession>): (ids: seq<int>)
    ensures |ids| == |ss| && forall i :: 0 <= i < |ss| ==> ids[i] == ss[i].spotId
  {
    seq(|ss|, i requires 0 <= i < |ss| => ss[i].spotId)
  }

  function SubscriberIds(subs: seq<Subscriber>): (ids: seq<int>)
    ensures |ids| == |subs| && forall i :: 0 <= i < |subs| ==> ids[i] == subs[i].id
  {
    seq(|subs|, i requires 0 <= i < |subs| => subs[i].id)
  }

  function SubscriberIdsOfSessions(ss: seq<ParkingSession>): (ids: seq<int>)
    ensures |ids| == |ss| && forall i :: 0 <= i < |ss| ==> ids[i] == ss[i].subscriberId
  {
    seq(|ss|, i requires 0 <= i < |ss| => ss[i].subscriberId)
  }

  /** `createParkingSessionsPerSpotChart`: every known spot (0 if unused) and
      every spot seen in a session of the period, in ascending id order, with
      its session count; the counts add up to the number of such sessions. */
  function SessionsPerSpot(sessions: seq<ParkingSession>, spots: seq<ParkingSpot>, year: int, month: int)
    : (r: seq<(int, nat)>)
    ensures StrictlyAscending(KeysOf(r))
    ensures forall k :: k in KeysOf(r) <==>
      k in SpotIdsOfSpots(spots) || k in SpotIdsOfSessions(SessionsOfPeriod(sessions, year, month))
    ensures forall i :: 0 <= i < |r| ==>
      r[i].1 == Occ(SpotIdsOfSessions(SessionsOfPeriod(sessions, year, month)), r[i].0)
    ensures Sum(CountsOf(r)) == |SessionsOfPeriod(sessions, year, month)|
  {
    Tally(SpotIdsOfSpots(spots), SpotIdsOfSessions(SessionsOfPeriod(sessions, year, month)))
  }

  predicate LateInPeriod(s: ParkingSession, year: int, month: int) {
    SessionInPeriod(s, year, month) && s.late
  }

  /** `createLateSubscribersChartFX`: every subscriber (0 by default) and every
      subscriber with a late session of the period, ascending, with the number
      of late sessions; sessions not flagged late never count. */
  function LatePerSubscriber(sessions: seq<ParkingSession>, subs: seq<Subscriber>, year: int, month: int)
    : (r: seq<(int, nat)>)
    ensures StrictlyAscending(KeysOf(r))
    ensures forall k :: k in KeysOf(r) <==>
      k in SubscriberIds(subs) || k in SubscriberIdsOfSessions(Filter(sessions, s => LateInPeriod(s, year, month)))
    ensures forall i :: 0 <= i < |r| ==>
      r[i].1 == Occ(SubscriberIdsOfSessions(Filter(sessions, s => LateInPeriod(s, year, month))), r[i].0)
    ensures Sum(CountsOf(r)) == |Filter(sessions, s => LateInPeriod(s, year, month))|
  {
    Tally(SubscriberIds(subs), SubscriberIdsOfSessions(Filter(sessions, s => LateInPeriod(s, year, month))))
  }

  // ---------------------------------------------------------------------
  // Sections, columns and rows
  // ---------------------------------------------------------------------

  /** A table cell: a field's value before `String.valueOf` renders it (a
      null field prints "null"), or the "N/A" written for a column the record
      does not have. */
  datatype Value =
    | NotAvailable
    | VInt(i: int)
    | VBool(b: bool)
    | VText(s: string)
    | VDate(d: Date)
    | VDateTime(t: DateTime)
    | VNull
    | VRole(role: Role)
    | VStatus(status: SpotStatus)
    | VSessions(sessions: seq<ParkingSession>)

  datatype Item =
    | SessionItem(session: ParkingSession)
    | ReservationItem(reservation: Reservation)
    | SpotItem(spot: ParkingSpot)
    | SubscriberItem(subscriber: Subscriber)

  /** The declared fields of each record type, superclass fields first. */
  function DeclaredFields(it: Item): seq<string> {
    match it
    case SessionItem(_) =>
      ["sessionId", "subscriberId", "spotId", "parkingCode", "inTime", "outTime", "extended", "late", "active"]
    case ReservationItem(_) => ["id", "subscriberId", "spotId", "date", "startTime", "endTime", "code"]
    case SpotItem(_) => ["spotId", "status"]
    case SubscriberItem(_) => ["id", "name", "phone", "email", "role", "loggedIn", "history", "tag", "code"]
  }

  function LowerAscii(c: char): char {
    if 'A' <= c <= 'Z' then (c as int + 32) as char else c
  }

  /** `String.equalsIgnoreCase` on ASCII text. */
  predicate EqualsIgnoreCase(a: string, b: string) {
    |a| == |b| && forall i :: 0 <= i < |a| ==> LowerAscii(a[i]) == LowerAscii(b[i])
  }

  predicate KeptSubscriberColumn(c: string) {
    !EqualsIgnoreCase(c, "history") && !EqualsIgnoreCase(c, "loggedIn")
  }

  /** The table columns, taken from the first record's type; subscriber tables
      drop `history` and `loggedIn`, compared without regard to case. */
  function Columns(first: Item): (cols: seq<string>)
    ensures first.SubscriberItem? ==>
      (forall i :: 0 <= i < |cols| ==> KeptSubscriberColumn(cols[i]))
      && (forall i :: 0 <= i < |DeclaredFields(first)| && KeptSubscriberColumn(DeclaredFields(first)[i]) ==>
            DeclaredFields(first)[i] in cols)
    ensures !first.SubscriberItem? ==> cols == DeclaredFields(first)
  {
    if first.SubscriberItem? then Filter(DeclaredFields(first), KeptSubscriberColumn)
    else DeclaredFields(first)
  }

  /** The subscriber columns are exactly the declared ones minus the two
      excluded fields, in declaration order. */
  lemma SubscriberColumns(s: Subscriber)
    ensures Columns(SubscriberItem(s)) == ["id", "name", "phone", "email", "role", "tag", "code"]
  {
    var head: seq<string> := ["id", "name", "phone", "email", "role"];
    var mid: seq<string> := ["loggedIn", "history"];
    var tail: seq<string> := ["tag", "code"];
    assert DeclaredFields(SubscriberItem(s)) == head + mid + tail;
    ShortNamesKept(head);
    ShortNamesKept(tail);
    ExcludedNames(mid);
    FilterDropsMiddle(head, mid, tail, KeptSubscriberColumn);
  }

  /** Names whose lengths differ from both excluded names are kept. */
  lemma ShortNamesKept(cs: seq<string>)
    requires forall i :: 0 <= i < |cs| ==> |cs[i]| != |"history"| && |cs[i]| != |"loggedIn"|
    ensures forall i :: 0 <= i < |cs| ==> KeptSubscriberColumn(cs[i])
  {
  }

  lemma ExcludedNames(cs: seq<string>)
    requires cs == ["loggedIn", "history"]
    ensures forall i :: 0 <= i < |cs| ==> !KeptSubscriberColumn(cs[i])
  {
    assert EqualsIgnoreCase(cs[0], "loggedIn");
    assert EqualsIgnoreCase(cs[1], "history");
  }

  function OptionalText(o: Option<string>): Value {
    match o
    case None => VNull
    case Some(s) => VText(s)
  }

  /** The value of the named field of a record, as `Field.get` reads it; a
      name the record does not have gives "N/A". */
  function FieldValue(it: Item, name: string): Value {
    match it
    case SessionItem(s) =>
      if name == "sessionId" then VInt(s.sessionId)
      else if name == "subscriberId" then VInt(s.subscriberId)
      else if name == "spotId" then VInt(s.spotId)
      else if name == "parkingCode" then VInt(s.parkingCode)
      else if name == "inTime" then VDateTime(s.inTime)
      else if name == "outTime" then (if s.outTime.Some? then VDateTime(s.outTime.value) else VNull)
      else if name == "extended" then VBool(s.extended)
      else if name == "late" then VBool(s.late)
      else if name == "active" then VBool(s.active)
      else NotAvailable
    case ReservationItem(r) =>
      if name == "id" then VInt(r.id)
      else if name == "subscriberId" then VInt(r.subscriberId)
      else if name == "spotId" then VInt(r.spotId)
      else if name == "date" then VDate(r.date)
      else if name == "startTime" then OptionalText(r.startTime)
      else if name == "endTime" then OptionalText(r.endTime)
      else if name == "code" then VInt(r.code)
      else NotAvailable
    case SpotItem(p) =>
      if name == "spotId" then VInt(p.spotId)
      else if name == "status" then VStatus(p.status)
      else NotAvailable
    case SubscriberItem(u) =>
      if name == "id" then VInt(u.id)
      else if name == "name" then VText(u.name)
      else if name == "phone" then VText(u.phone)
      else if name == "email" then VText(u.email)
      else if name == "role" then VRole(u.role)
      else if name == "loggedIn" then VBool(u.loggedIn)
      else if name == "history" then (if u.history.Some? then VSessions(u.history.value) else VNull)
      else if name == "tag" then VText(u.tag)
      else if name == "code" then VInt(u.code)
      else NotAvailable
  }

  /** A name gives "N/A" exactly when the record does not declare it. */
  lemma FieldAvailable(it: Item, name: string)
    ensures FieldValue(it, name) == NotAvailable <==> name !in DeclaredFields(it)
  {
  }

  /** One table row: the record's value for each column, in column order, with
      "N/A" exactly in the columns the record does not declare. */
  function Row(it: Item, cols: seq<string>): (row: seq<Value>)
    ensures |row| == |cols|
    ensures forall i :: 0 <= i < |cols| ==> (row[i] == NotAvailable <==> cols[i] !in DeclaredFields(it))
  {
    var row := seq(|cols|, i requires 0 <= i < |cols| => FieldValue(it, cols[i]));
    forall i | 0 <= i < |cols| ensures row[i] == NotAvailable <==> cols[i] !in DeclaredFields(it) {
      FieldAvailable(it, cols[i]);
    }
    row
  }

  /** A reservation's row lists its seven fields in declaration order. */
  lemma ReservationRow(r: Reservation)
    ensures Row(ReservationItem(r), Columns(ReservationItem(r))) ==
      [VInt(r.id), VInt(r.subscriberId), VInt(r.spotId), VDate(r.date),
       OptionalText(r.startTime), OptionalText(r.endTime), VInt(r.code)]
  {
  }

  /** A session's row lists its nine fields in declaration order; an open
      session's exit time is null. */
  lemma SessionRow(s: ParkingSession)
    ensures Row(SessionItem(s), Columns(SessionItem(s))) ==
      [VInt(s.sessionId), VInt(s.subscriberId), VInt(s.spotId), VInt(s.parkingCode),
       VDateTime(s.inTime), if s.outTime.Some? then VDateTime(s.outTime.value) else VNull,
       VBool(s.extended), VBool(s.late), VBool(s.active)]
  {
  }

  /** A spot's row is its id and status. */
  lemma SpotRow(p: ParkingSpot)
    ensures Row(SpotItem(p), Columns(SpotItem(p))) == [VInt(p.spotId), VStatus(p.status)]
  {
  }

  /** A subscriber's row lists every field but the login flag and the
      history, in declaration order. */
  lemma SubscriberRow(u: Subscriber)
    ensures Row(SubscriberItem(u), Columns(SubscriberItem(u))) ==
      [VInt(u.id), VText(u.name), VText(u.phone), VText(u.email), VRole(u.role), VText(u.tag), VInt(u.code)]
  {
    SubscriberColumns(u);
  }

  predicate SameKind(a: Item, b: Item) {
    (a.SessionItem? && b.SessionItem?) || (a.ReservationItem? && b.ReservationItem?)
    || (a.SpotItem? && b.SpotItem?) || (a.SubscriberItem? && b.SubscriberItem?)
  }

  /** Every record of the list has the type of the first. */
  predicate Uniform(items: seq<Item>) {
    forall k :: 0 <= k < |items| ==> SameKind(items[0], items[k])
  }

  /** A section whose records are all of one type has no "N/A" cell: every
      column comes from the first record's type, which every record declares. */
  lemma SameKindRowsComplete(title: string, pageBreak: bool, items: seq<Item>, chart: Chart)
    requires Uniform(items)
    ensures Complete(AddSection(title, pageBreak, items, chart))
  {
    var s := AddSection(title, pageBreak, items, chart);
    if s.body.Table? {
      var cols := Columns(items[0]);
      forall k, i | 0 <= k < |items| && 0 <= i < |cols| ensures Row(items[k], cols)[i] != NotAvailable {
        assert DeclaredFields(items[k]) == DeclaredFields(items[0]);
        assert cols[i] in DeclaredFields(items[0]);
      }
    }
  }

  datatype Chart =
    | PerDayChart(days: seq<(int, nat)>)
    | PieChart(split: Split)
    | PerSpotChart(spots: seq<(int, nat)>)
    | LateChart(late: seq<(int, nat)>)

  datatype Body = NoData | Table(columns: seq<string>, rows: seq<seq<Value>>, chart: Chart)

  datatype Section = Section(title: string, pageBreak: bool, body: Body)

  /** No cell of the section's table is "N/A". */
  predicate Complete(s: Section) {
    s.body.Table? ==> forall k, i :: 0 <= k < |s.body.rows| && 0 <= i < |s.body.rows[k]| ==>
      s.body.rows[k][i] != NotAvailable
  }

  const NoDataText: string := "No data available."

  /** `addSection`: an empty list gets the no-data note and neither table nor
      chart; otherwise one row per record, every row as wide as the header. */
  function AddSection(title: string, pageBreak: bool, items: seq<Item>, chart: Chart): (s: Section)
    ensures s.title == title && s.pageBreak == pageBreak
    ensures s.body.NoData? <==> items == []
    ensures items != [] ==>
      s.body.columns == Columns(items[0]) && s.body.chart == chart
      && |s.body.rows| == |items|
      && forall k :: 0 <= k < |items| ==> s.body.rows[k] == Row(items[k], s.body.columns)
  {
    if items == [] then Section(title, pageBreak, NoData)
    else
      var cols := Columns(items[0]);
      Section(title, pageBreak, Table(cols, seq(|items|, k requires 0 <= k < |items| => Row(items[k], cols)), chart))
  }

  datatype SectionInput = SectionInput(title: string, items: seq<Item>, chart: Chart)

  /** The sections in call order; the `firstSection` flag puts a page break
      before every section except the first. */
  function Layout(inputs: seq<SectionInput>, firstSection: bool): (ss: seq<Section>)
    ensures |ss| == |inputs|
    ensures forall i :: 0 <= i < |ss| ==>
      ss[i] == AddSection(inputs[i].title, !(firstSection && i == 0), inputs[i].items, inputs[i].chart)
  {
    if inputs == [] then []
    else
      [AddSection(inputs[0].title, !firstSection, inputs[0].items, inputs[0].chart)]
      + Layout(inputs[1..], false)
  }

  // ---------------------------------------------------------------------
  // The whole report
  // ---------------------------------------------------------------------

  datatype Store = Store(
    sessions: seq<ParkingSession>,
    spots: seq<ParkingSpot>,
    subscribers: seq<Subscriber>,
    reservations: seq<Reservation>)

  datatype Document = Document(title: string, sections: seq<Section>)

  function SessionItems(ss: seq<ParkingSession>): (its: seq<Item>)
    ensures |its| == |ss| && forall i :: 0 <= i < |ss| ==> its[i] == SessionItem(ss[i])
  { seq(|ss|, i requires 0 <= i < |ss| => SessionItem(ss[i])) }

  function ReservationItems(rs: seq<Reservation>): (its: seq<Item>)
    ensures |its| == |rs| && forall i :: 0 <= i < |rs| ==> its[i] == ReservationItem(rs[i])
  { seq(|rs|, i requires 0 <= i < |rs| => ReservationItem(rs[i])) }

  function SpotItems(ps: seq<ParkingSpot>): (its: seq<Item>)
    ensures |its| == |ps| && forall i :: 0 <= i < |ps| ==> its[i] == SpotItem(ps[i])
  { seq(|ps|, i requires 0 <= i < |ps| => SpotItem(ps[i])) }

  function SubscriberItems(us: seq<Subscriber>): (its: seq<Item>)
    ensures |its| == |us| && forall i :: 0 <= i < |us| ==> its[i] == SubscriberItem(us[i])
  { seq(|us|, i requires 0 <= i < |us| => SubscriberItem(us[i])) }

  /** The four sections of `getPDF`, in call order: sessions and
      reservations restricted to the period, spots and subscribers in full;
      each lists records of one type. */
  function ReportInputs(year: int, month: int, st: Store): (inputs: seq<SectionInput>)
    requires 1 <= month <= 12
    ensures |inputs| == 4
    ensures forall i :: 0 <= i < |inputs| ==> Uniform(inputs[i].items)
  {
    var ss := SessionsOfPeriod(st.sessions, year, month);
    var rs := ReservationsOfPeriod(st.reservations, year, month);
    var a, b, c, e := SessionItems(ss), ReservationItems(rs), SpotItems(st.spots), SubscriberItems(st.subscribers);
    ItemListsUniform(ss, rs, st.spots, st.subscribers);
    FourUniform(
      SectionInput("Parking Sessions", a, PerDayChart(SessionsPerDay(ss, year, month))),
      SectionInput("Reservations", b, PieChart(UsedCanceled(rs))),
      SectionInput("Parking Spots", c, PerSpotChart(SessionsPerSpot(ss, st.spots, year, month))),
      SectionInput("Subscribers", e, LateChart(LatePerSubscriber(ss, st.subscribers, year, month))))
  }

  /** Four sections in order; each lists records of one type. */
  function FourUniform(a: SectionInput, b: SectionInput, c: SectionInput, d: SectionInput): (inputs: seq<SectionInput>)
    requires Uniform(a.items) && Uniform(b.items) && Uniform(c.items) && Uniform(d.items)
    ensures |inputs| == 4 && forall i :: 0 <= i < |inputs| ==> Uniform(inputs[i].items)
  {
    [a, b, c, d]
  }

  /** `getPDF`: no document when any fetch fails (`None`); otherwise the
      title and the four sections, sessions and reservations restricted to the
      period, spots and subscribers in full. */
  function GetPDF(year: int, month: int, fetched: Option<Store>): (d: Option<Document>)
    requires 1 <= month <= 12
    ensures fetched.None? <==> d.None?
    ensures d.Some? ==>
      var st := fetched.value;
      var ss := SessionsOfPeriod(st.sessions, year, month);
      var rs := ReservationsOfPeriod(st.reservations, year, month);
      && d.value.title == "Monthly Report: " + MonthName(month) + " " + IntToString(year)
      && |d.value.sections| == 4
      && d.value.sections[0] == AddSection("Parking Sessions", false, SessionItems(ss),
           PerDayChart(SessionsPerDay(ss, year, month)))
      && d.value.sections[1] == AddSection("Reservations", true, ReservationItems(rs),
           PieChart(UsedCanceled(rs)))
      && d.value.sections[2] == AddSection("Parking Spots", true, SpotItems(st.spots),
           PerSpotChart(SessionsPerSpot(ss, st.spots, year, month)))
      && d.value.sections[3] == AddSection("Subscribers", true, SubscriberItems(st.subscribers),
           LateChart(LatePerSubscriber(ss, st.subscribers, year, month)))
  {
    match fetched
    case None => None
    case Some(st) =>
      Some(Document("Monthly Report: " + MonthName(month) + " " + IntToString(year),
                    Layout(ReportInputs(year, month, st), true)))
  }

  /** Used plus canceled is the number of reservations of the period, and the
      per-day counts add up to the number of sessions of the period. */
  lemma ReportTotals(year: int, month: int, st: Store)
    requires 1 <= month <= 12
    ensures var ss := SessionsOfPeriod(st.sessions, year, month);
      var rs := ReservationsOfPeriod(st.reservations, year, month);
      UsedCanceled(rs).used + UsedCanceled(rs).canceled == |rs|
      && Sum(CountsOf(SessionsPerDay(ss, year, month))) == |ss|
      && Sum(CountsOf(SessionsPerSpot(ss, st.spots, year, month))) == |ss|
  {
    var ss := SessionsOfPeriod(st.sessions, year, month);
    FilterIdempotentPeriod(st.sessions, year, month);
  }

  /** Each of the four record lists of a report holds records of one type. */
  lemma ItemListsUniform(ss: seq<ParkingSession>, rs: seq<Reservation>, ps: seq<ParkingSpot>, us: seq<Subscriber>)
    ensures Uniform(SessionItems(ss)) && Uniform(ReservationItems(rs))
    ensures Uniform(SpotItems(ps)) && Uniform(SubscriberItems(us))
  {
  }

  /** A layout of sections that each list records of one type has no "N/A"
      cell anywhere. */
  lemma LayoutComplete(inputs: seq<SectionInput>, firstSection: bool)
    requires forall i :: 0 <= i < |inputs| ==> Uniform(inputs[i].items)
    ensures forall j :: 0 <= j < |inputs| ==> Complete(Layout(inputs, firstSection)[j])
  {
    forall j | 0 <= j < |inputs| ensures Complete(Layout(inputs, firstSection)[j]) {
      SameKindRowsComplete(inputs[j].title, !(firstSection && j == 0), inputs[j].items, inputs[j].chart);
    }
  }

  /** No table of a monthly report holds an "N/A" cell. */
  lemma ReportHasNoMissingCells(year: int, month: int, st: Store)
    requires 1 <= month <= 12
    ensures var d := GetPDF(year, month, Some(st)).value;
      forall j :: 0 <= j < |d.sections| ==> Complete(d.sections[j])
  {
    LayoutComplete(ReportInputs(year, month, st), true);
  }

  lemma FilterIdempotentPeriod(ss: seq<ParkingSession>, year: int, month: int)
    ensures SessionsOfPeriod(SessionsOfPeriod(ss, year, month), year, month) == SessionsOfPeriod(ss, year, month)
  {
    var f := SessionsOfPeriod(ss, year, month);
    FilterAll(f, s => SessionInPeriod(s, year, month));
  }

  // ---------------------------------------------------------------------
  // Expiry followed by the report
  // ---------------------------------------------------------------------

  /** Every date of the month before `(year, month)` is before its first day. */
  lemma PreviousMonthBefore(d: Date, year: int, month: int)
    requires 1 <= month <= 12
    requires (d.year, d.month) == PreviousMonth(year, month)
    ensures Before(d, CalendarDate(year, month, 1))
  {
  }

  /** When the expiry pass runs at midnight on the first of a month and every
      update succeeds, the report for the previous month then counts no used
      reservation: all of them have been tombstoned. */
  lemma ExpiryEmptiesPreviousMonth(year: int, month: int, st: Store, ok: seq<bool>)
    requires 1 <= month <= 12
    requires |ok| == |st.reservations| && forall i :: 0 <= i < |ok| ==> ok[i]
    ensures var o := Expiry.Run(DateTime(CalendarDate(year, month, 1), 0), st.reservations, true, ok);
      var (py, pm) := PreviousMonth(year, month);
      var doc := GetPDF(py, pm, Some(st.(reservations := o.store)));
      UsedCanceled(ReservationsOfPeriod(o.store, py, pm)).used == 0
      && doc.Some?
      && (doc.value.sections[1].body.Table? ==>
        doc.value.sections[1].body.chart == PieChart(Split(0, |ReservationsOfPeriod(o.store, py, pm)|)))
  {
    var o := Expiry.Run(DateTime(CalendarDate(year, month, 1), 0), st.reservations, true, ok);
    var (py, pm) := PreviousMonth(year, month);
    var rs := ReservationsOfPeriod(o.store, py, pm);
    PreviousMonthAllCanceled(year, month, st, ok);
    var split := UsedCanceled(rs);
    assert split == Split(0, |rs|);
    var st2 := st.(reservations := o.store);
    var doc := GetPDF(py, pm, Some(st2));
    assert doc.value.sections[1] == AddSection("Reservations", true, ReservationItems(rs), PieChart(split));
  }

  lemma PreviousMonthAllCanceled(year: int, month: int, st: Store, ok: seq<bool>)
    requires 1 <= month <= 12
    requires |ok| == |st.reservations| && forall i :: 0 <= i < |ok| ==> ok[i]
    ensures var o := Expiry.Run(DateTime(CalendarDate(year, month, 1), 0), st.reservations, true, ok);
      var (py, pm) := PreviousMonth(year, month);
      var rs := ReservationsOfPeriod(o.store, py, pm);
      forall i :: 0 <= i < |rs| ==> IsCanceled(rs[i])
  {
    var o := Expiry.Run(DateTime(CalendarDate(year, month, 1), 0), st.reservations, true, ok);
    var (py, pm) := PreviousMonth(year, month);
    var rs := ReservationsOfPeriod(o.store, py, pm);
    forall i | 0 <= i < |rs| ensures IsCanceled(rs[i]) {
      var j :| 0 <= j < |o.store| && o.store[j] == rs[i];
      PreviousMonthBefore(o.store[j].date, year, month);
      assert st.reservations[j].date == o.store[j].date;
    }
  }
}
