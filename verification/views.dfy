/** The two list screens whose report screens extend them:
    `ViewActiveSessionsController` (the sessions of one picked day) and
    `ViewSubscriberController` (subscribers filtered by role, one
    subscriber's history filtered by year). Java's null lists and dates are
    `None`; the table widgets are the sequences they are given. */
module Views {
  import opened Wrappers
  import opened Text
  import opened Calendar
  import opened Counting
  import opened Entities

  // ---------------------------------------------------------------------
  // ViewActiveSessionsController
  // ---------------------------------------------------------------------

  /** The controller's state: the full list, the selected date and the rows
      shown for it. The date field starts null even though the picker shows
      today, so nothing is shown until a date is picked. */
  datatype ActiveView = ActiveView(
    all: Option<seq<ParkingSession>>,
    date: Option<Date>,
    shown: seq<ParkingSession>)

  const InitialActiveView := ActiveView(Some([]), None, [])

  function OnDay(d: Date): ParkingSession -> bool {
    (s: ParkingSession) => s.inTime.date == d
  }

  /** `filterByDate`: the sessions that entered on the selected date, in list
      order; nothing when either the list or the date is null. */
  function FilterByDate(all: Option<seq<ParkingSession>>, date: Option<Date>): (r: seq<ParkingSession>)
    ensures all.None? || date.None? ==> r == []
    ensures forall i :: 0 <= i < |r| ==> date.Some? && r[i].inTime.date == date.value && all.Some? && r[i] in all.value
    ensures all.Some? && date.Some? ==>
      forall i :: 0 <= i < |all.value| && all.value[i].inTime.date == date.value ==> all.value[i] in r
  {
    if all.None? || date.None? then [] else Filter(all.value, OnDay(date.value))
  }

  /** The rows shown are the filter of the list by the selected date. */
  predicate Consistent(v: ActiveView) {
    v.shown == FilterByDate(v.all, v.date)
  }

  /** `setSessions`: the full list is replaced and the rows refiltered. */
  function SetSessions(v: ActiveView, sessions: Option<seq<ParkingSession>>): (v': ActiveView)
    ensures v'.all == sessions && v'.date == v.date
    ensures Consistent(v')
  {
    v.(all := sessions, shown := FilterByDate(sessions, v.date))
  }

  datatype Refreshed = Refreshed(view: ActiveView, error: bool)

  /** `refresh` on a pick: a date after today raises the error alert and
      changes nothing; today or earlier becomes the selected date and the rows
      are refiltered; a cleared picker clears the date but does not refilter,
      so the previous rows stay on screen. */
  function Refresh(v: ActiveView, picked: Option<Date>, today: Date): (r: Refreshed)
    ensures r.error <==> picked.Some? && Before(today, picked.value)
    ensures r.error ==> r.view == v
    ensures !r.error ==> r.view.date == picked && r.view.all == v.all
    ensures picked.Some? && !r.error ==> Consistent(r.view)
    ensures picked.None? ==> r.view.shown == v.shown
  {
    match picked
    case None => Refreshed(v.(date := None), false)
    case Some(d) =>
      if Before(today, d) then Refreshed(v, true)
      else Refreshed(v.(date := picked, shown := FilterByDate(v.all, picked)), false)
  }

  /** Picking today after loading a list shows exactly that day's sessions,
      whatever was picked before. */
  lemma PickTodayShowsToday(v: ActiveView, sessions: seq<ParkingSession>, today: Date)
    ensures var r := Refresh(SetSessions(v, Some(sessions)), Some(today), today);
      !r.error && r.view.shown == Filter(sessions, OnDay(today))
  {
    assert !Before(today, today);
  }

  /** Clearing the picker leaves stale rows: after a day with a session was
      shown, the date is null but the rows are not the (empty) filter by a
      null date. */
  lemma ClearedPickerKeepsRows(s: ParkingSession, today: Date)
    ensures var v := Refresh(SetSessions(InitialActiveView, Some([s])), Some(s.inTime.date), s.inTime.date).view;
      var cleared := Refresh(v, None, today).view;
      cleared.date.None? && cleared.shown == [s] && !Consistent(cleared)
  {
    var v := Refresh(SetSessions(InitialActiveView, Some([s])), Some(s.inTime.date), s.inTime.date).view;
    assert !Before(s.inTime.date, s.inTime.date);
    assert v.shown == Filter([s], OnDay(s.inTime.date));
    assert [s][1..] == [];
  }

  /** A future pick is refused from any state, and so is every later refresh
      with the same pick: the state cannot be moved to a future date. */
  lemma FutureDateNeverSelected(v: ActiveView, picks: seq<Option<Date>>, today: Date)
    requires v.date.None? || !Before(today, v.date.value)
    requires forall i :: 0 <= i < |picks| ==> picks[i].Some? && Before(today, picks[i].value)
    ensures RefreshAll(v, picks, today) == v
    decreases |picks|
  {
    if picks != [] {
      FutureDateNeverSelected(Refresh(v, picks[0], today).view, picks[1..], today);
    }
  }

  /** A series of picks, in order. */
  function RefreshAll(v: ActiveView, picks: seq<Option<Date>>, today: Date): ActiveView
    decreases |picks|
  {
    if picks == [] then v else RefreshAll(Refresh(v, picks[0], today).view, picks[1..], today)
  }

  // ---------------------------------------------------------------------
  // ViewSubscriberController
  // ---------------------------------------------------------------------

  /** The role combo box's entries, "All" first and selected at start. */
  const RoleChoices: seq<string> := ["All", "MANAGER", "SUBSCRIBER", "ATTENDANT"]

  function HasRoleName(name: string): Subscriber -> bool {
    (sub: Subscriber) => RoleName(sub.role) == name
  }

  /** `filterSubscribers`: everybody for a null or "All" selection, otherwise
      the subscribers whose role's name is the selection, in list order. */
  function FilterSubscribers(all: seq<Subscriber>, selectedRole: Option<string>): (r: seq<Subscriber>)
    ensures selectedRole.None? || selectedRole.value == "All" ==> r == all
    ensures selectedRole.Some? && selectedRole.value != "All" ==>
      (forall i :: 0 <= i < |r| ==> RoleName(r[i].role) == selectedRole.value && r[i] in all)
      && (forall i :: 0 <= i < |all| && RoleName(all[i].role) == selectedRole.value ==> all[i] in r)
  {
    if selectedRole.None? || selectedRole.value == "All" then all
    else Filter(all, HasRoleName(selectedRole.value))
  }

  /** The three role entries split the list: every subscriber shows up under
      exactly one of them. */
  lemma {:induction false} RoleFiltersPartition(all: seq<Subscriber>)
    ensures |FilterSubscribers(all, Some("MANAGER"))| + |FilterSubscribers(all, Some("SUBSCRIBER"))|
      + |FilterSubscribers(all, Some("ATTENDANT"))| == |all|
  {
    if all != [] {
      RoleFiltersPartition(all[1..]);
      assert FilterSubscribers(all[1..], Some("MANAGER")) == Filter(all[1..], HasRoleName("MANAGER"));
      assert FilterSubscribers(all[1..], Some("SUBSCRIBER")) == Filter(all[1..], HasRoleName("SUBSCRIBER"));
      assert FilterSubscribers(all[1..], Some("ATTENDANT")) == Filter(all[1..], HasRoleName("ATTENDANT"));
    }
  }

  /** A role name no subscriber can have (a misspelling) shows nobody. */
  lemma UnknownRoleShowsNobody(all: seq<Subscriber>, name: string)
    requires name !in RoleChoices
    ensures FilterSubscribers(all, Some(name)) == []
  {
    forall i | 0 <= i < |all| ensures !HasRoleName(name)(all[i]) {
      RoleNamesAreChoices();
    }
    FilterNone(all, HasRoleName(name));
  }

  lemma RoleNamesAreChoices()
    ensures forall r: Role :: RoleName(r) in RoleChoices
  {
  }

  datatype SubscriberView = SubscriberView(all: seq<Subscriber>, shown: seq<Subscriber>)

  /** `setSubscribers`: the list is replaced and refiltered by the current
      selection. */
  function SetSubscribers(subscribers: seq<Subscriber>, selectedRole: Option<string>): (v: SubscriberView)
    ensures v.all == subscribers
    ensures selectedRole.None? || selectedRole == Some("All") ==> v.shown == subscribers
    ensures selectedRole.Some? && selectedRole.value != "All" ==>
      (forall i :: 0 <= i < |v.shown| ==> RoleName(v.shown[i].role) == selectedRole.value && v.shown[i] in subscribers)
      && (forall i :: 0 <= i < |subscribers| && RoleName(subscribers[i].role) == selectedRole.value ==> subscribers[i] in v.shown)
    ensures |v.shown| <= |subscribers|
  {
    SubscriberView(subscribers, FilterSubscribers(subscribers, selectedRole))
  }

  function InYear(year: int): ParkingSession -> bool {
    (s: ParkingSession) => s.inTime.date.year == year
  }

  /** `populateHistoryTable`: the sessions that entered in the selected year,
      in list order. */
  function HistoryOfYear(sessions: seq<ParkingSession>, year: int): (r: seq<ParkingSession>)
    ensures forall i :: 0 <= i < |r| ==> r[i].inTime.date.year == year && r[i] in sessions
    ensures forall i :: 0 <= i < |sessions| && sessions[i].inTime.date.year == year ==> sessions[i] in r
  {
    Filter(sessions, InYear(year))
  }

  /** The year filter works session by session: the rows of two histories
      put together are the rows of each, in order. */
  lemma HistoryOfYearSplits(a: seq<ParkingSession>, b: seq<ParkingSession>, year: int)
    ensures HistoryOfYear(a + b, year) == HistoryOfYear(a, year) + HistoryOfYear(b, year)
  {
    FilterAppend(a, b, InYear(year));
  }

  datatype HistoryView = HistoryView(stored: seq<ParkingSession>, table: seq<ParkingSession>)

  datatype HistoryOutcome = HistoryOutcome(view: HistoryView, failed: bool)

  /** `setHistorySessions`: a null argument stores an empty list, but the
      original null is handed on to the table, which then fails with the
      table left as it was. */
  function SetHistorySessions(v: HistoryView, history: Option<seq<ParkingSession>>, year: int): (o: HistoryOutcome)
    ensures o.failed <==> history.None?
    ensures o.view.stored == history.GetOr([])
    ensures o.failed ==> o.view.table == v.table
    ensures !o.failed ==> o.view.table == HistoryOfYear(o.view.stored, year)
  {
    match history
    case None => HistoryOutcome(HistoryView([], v.table), true)
    case Some(h) => HistoryOutcome(HistoryView(h, HistoryOfYear(h, year)), false)
  }

  /** The server message handler never passes null: an empty or non-session
      list is replaced by a fresh empty one, so the table is emptied. */
  function OnHistoryMessage(v: HistoryView, received: seq<ParkingSession>, year: int): (o: HistoryOutcome)
    ensures !o.failed
    ensures received == [] ==> o.view == HistoryView([], [])
  {
    SetHistorySessions(v, Some(received), year)
  }

  /** The subscriber-ID field takes an edit only when the new text is all
      digits (`\d*`), so the field never holds anything else. */
  function IdFieldEdit(previous: string, edited: string): (r: string)
    ensures AllDigits(previous) ==> AllDigits(r)
    ensures AllDigits(edited) ==> r == edited
    ensures !AllDigits(edited) ==> r == previous
  {
    LiveFilter(AllDigitsFn(), previous, edited)
  }

  function AllDigitsFn(): string -> bool { s => AllDigits(s) }

  /** A sequence of edits, starting from the empty field. */
  function IdFieldAfter(edits: seq<string>): (r: string)
    ensures AllDigits(r)
    ensures edits != [] && AllDigits(edits[|edits| - 1]) ==> r == edits[|edits| - 1]
  {
    if edits == [] then "" else IdFieldEdit(IdFieldAfter(edits[..|edits| - 1]), edits[|edits| - 1])
  }

  datatype FetchError = EmptyId | NotANumber

  /** `fetchHistory` on the field's text: an empty (after trimming) field is
      refused, otherwise `Integer.parseInt` either yields the id or, when the
      digits exceed `int`'s range, throws and the error alert is shown. */
  function FetchHistory(text: string): (r: Result<int, FetchError>)
    requires AllDigits(text)
    ensures r == Err(EmptyId) <==> text == []
    ensures r.Ok? ==> 0 <= r.value <= IntMax && r.value == ParseDigits(text)
    ensures r == Err(NotANumber) <==> text != [] && ParseDigits(text) > IntMax
  {
    var t := Trim(text);
    if t == [] then Err(EmptyId)
    else if ParseDigits(t) <= IntMax then Ok(ParseDigits(t))
    else Err(NotANumber)
  }

  /** Nine digits or fewer always parse. */
  lemma ShortIdsParse(text: string)
    requires AllDigits(text) && 0 < |text| <= 9
    ensures FetchHistory(text) == Ok(ParseDigits(text))
  {
    ParseDigitsBound(text);
    assert Pow10(|text|) <= Pow10(9) by { Pow10Monotone(|text|, 9); }
  }

  lemma {:induction false} Pow10Monotone(a: nat, b: nat)
    requires a <= b
    ensures Pow10(a) <= Pow10(b)
    decreases b - a
  {
    if a < b {
      Pow10Monotone(a + 1, b);
    }
  }

  /** The year combo box: the current year followed by the nine before it. */
  function YearChoices(currentYear: int): (ys: seq<int>)
    ensures |ys| == 10 && ys[0] == currentYear
    ensures forall i, j :: 0 <= i < j < |ys| ==> ys[i] > ys[j]
    ensures forall y :: y in ys <==> currentYear - 10 < y <= currentYear
  {
    var ys := seq(10, i requires 0 <= i < 10 => currentYear - i);
    forall y | currentYear - 10 < y <= currentYear ensures y in ys {
      assert ys[currentYear - y] == y;
    }
    ys
  }
}
