/** The subscriber's reservation screen (`ReservationController`): the HH:MM
    field formatter, the creation validator, the reserve and delete actions and
    the check applied to a reservation loaded from the server. The clock is a
    parameter, dialogs become a `confirmed` flag, and what the controller sends
    to the server is returned as a list of requests. */
module ReservationForm {
  import opened Wrappers
  import opened Text
  import opened Calendar
  import opened Reservations

  // ---------------------------------------------------------------------
  // The HH:MM text formatter
  // ---------------------------------------------------------------------

  /** Lays out up to four digits as `H`, `HH`, `HH:M` or `HH:MM`: the colon
      appears only once a third digit follows it. */
  function LayOutTime(d: string): (r: string)
    requires |d| <= 4
    ensures |r| == |d| + (if |d| > 2 then 1 else 0)
    ensures |d| <= 2 ==> r == d
    ensures |d| > 2 ==> r[..2] == d[..2] && r[2] == ':' && r[3..] == d[2..]
  {
    if |d| <= 2 then d else d[..2] + ":" + d[2..]
  }

  /** The text listener: keep the digits, at most four of them, and put a
      colon in front of the third. */
  function FormatTime(text: string): (r: string)
    ensures |r| <= 5
    ensures var n := |Take(Digits(text), 4)|; |r| == n + (if n > 2 then 1 else 0)
    ensures Digits(r) == Take(Digits(text), 4)
    ensures forall i :: 0 <= i < |r| ==> (r[i] == ':' <==> i == 2)
    ensures forall i :: 0 <= i < |r| && i != 2 ==> IsDigit(r[i])
  {
    var d := Take(Digits(text), 4);
    LayOutTimeDigits(d);
    LayOutTime(d)
  }

  /** Laying out digits only adds the colon: the digits read back unchanged. */
  lemma LayOutTimeDigits(d: string)
    requires |d| <= 4 && AllDigits(d)
    ensures Digits(LayOutTime(d)) == d
  {
    if |d| > 2 {
      DigitsAppend(d[..2] + ":", d[2..]);
      DigitsAppend(d[..2], ":");
      assert d == d[..2] + d[2..];
    }
  }

  /** Formatting its own output changes nothing, so the listener's `setText`
      call, which fires the listener again, reaches a fixed point at once. */
  lemma FormatTimeIdempotent(text: string)
    ensures FormatTime(FormatTime(text)) == FormatTime(text)
  {
    var r := FormatTime(text);
    var d := Take(Digits(text), 4);
    assert Digits(r) == d;
    assert Take(Digits(r), 4) == d;
  }

  // ---------------------------------------------------------------------
  // The HH:MM check and the time parser
  // ---------------------------------------------------------------------

  /** The focus-lost check, `([01]\d|2[0-3]):[0-5]\d`. */
  predicate IsTimeText(v: string) {
    |v| == 5
    && ((('0' <= v[0] <= '1') && IsDigit(v[1])) || (v[0] == '2' && '0' <= v[1] <= '3'))
    && v[2] == ':'
    && '0' <= v[3] <= '5' && IsDigit(v[4])
  }

  /** Hours and minutes of a five-character `dd:dd` text. */
  function HourOf(v: string): int
    requires |v| == 5 && IsDigit(v[0]) && IsDigit(v[1])
  {
    DigitValue(v[0]) * 10 + DigitValue(v[1])
  }

  function MinuteOf(v: string): int
    requires |v| == 5 && IsDigit(v[3]) && IsDigit(v[4])
  {
    DigitValue(v[3]) * 10 + DigitValue(v[4])
  }

  /** The pattern says exactly: two digits, a colon, two digits, hour at most
      23 and minute at most 59. */
  lemma IsTimeTextMeaning(v: string)
    ensures IsTimeText(v) <==>
      (|v| == 5 && IsDigit(v[0]) && IsDigit(v[1]) && v[2] == ':' && IsDigit(v[3]) && IsDigit(v[4])
       && HourOf(v) <= 23 && MinuteOf(v) <= 59)
  {
  }

  /** `LocalTime.parse` on the field text, as minutes after midnight. It also
      accepts `HH:MM:SS` and fractions, which the formatter (at most five
      characters) never produces. */
  function ParseTime(v: string): (r: Option<MinuteOfDay>)
    ensures r.Some? <==> IsTimeText(v)
  {
    if IsTimeText(v) then Some(HourOf(v) * 60 + MinuteOf(v)) else None
  }

  function TwoDigits(n: int): (s: string)
    requires 0 <= n < 100
    ensures |s| == 2 && IsDigit(s[0]) && IsDigit(s[1])
  {
    [DigitChar(n / 10), DigitChar(n % 10)]
  }

  /** `LocalTime.toString()` for a time with no seconds. */
  function TimeText(m: MinuteOfDay): (s: string)
    ensures |s| == 5
  {
    TwoDigits(m / 60) + ":" + TwoDigits(m % 60)
  }

  /** Printing then parsing gives the time back, and every accepted text is
      the printed form of what it parses to. */
  lemma TimeTextRoundTrip(m: MinuteOfDay, v: string)
    ensures ParseTime(TimeText(m)) == Some(m)
    ensures ParseTime(v) == Some(m) ==> TimeText(m) == v
  {
    var t := TimeText(m);
    assert HourOf(t) == m / 60 && MinuteOf(t) == m % 60;
    if ParseTime(v) == Some(m) {
      assert HourOf(v) == m / 60 && MinuteOf(v) == m % 60;
      assert v[0] == DigitChar(HourOf(v) / 10) && v[1] == DigitChar(HourOf(v) % 10);
      assert v[3] == DigitChar(MinuteOf(v) / 10) && v[4] == DigitChar(MinuteOf(v) % 10);
    }
  }

  // ---------------------------------------------------------------------
  // The creation validator
  // ---------------------------------------------------------------------

  /** `LocalDateTime.now()`: a minute instant, plus whether the seconds and
      nanoseconds past that minute are non-zero. */
  datatype Now = Now(minute: int, subMinute: bool)

  datatype Reason = MissingField | BadTimeFormat | StartNotBeforeEnd | TooSoon | TooFar

  /** The reservation window in whole minutes: no earlier than 24 hours after
      now (a later minute when now is past the minute mark) and no later than
      7 days after now. */
  predicate InWindow(start: int, now: Now) {
    now.minute + MinutesPerDay + (if now.subMinute then 1 else 0) <= start
    && start <= now.minute + MinutesPerWeek
  }

  function StartInstant(date: Date, start: MinuteOfDay): int {
    Ordinal(date) * MinutesPerDay + start
  }

  /** The date is chosen and neither time field is blank. */
  predicate FieldsFilled(date: Option<Date>, startText: string, endText: string) {
    date.Some? && !IsBlank(startText) && !IsBlank(endText)
  }

  /** Both trimmed time fields parse. */
  predicate TimesParse(startText: string, endText: string) {
    ParseTime(Trim(startText)).Some? && ParseTime(Trim(endText)).Some?
  }

  /** `validateReservation`: the checks in order, the first failure wins. Each
      reason holds exactly when the earlier checks pass and its own fails. */
  function Validate(date: Option<Date>, startText: string, endText: string, now: Now): (r: Result<(), Reason>)
    ensures r.Ok? <==>
      (date.Some? && ParseTime(Trim(startText)).Some? && ParseTime(Trim(endText)).Some?
       && ParseTime(Trim(startText)).value < ParseTime(Trim(endText)).value
       && InWindow(StartInstant(date.value, ParseTime(Trim(startText)).value), now))
    ensures r == Err(MissingField) <==> !FieldsFilled(date, startText, endText)
    ensures r == Err(BadTimeFormat) <==>
      FieldsFilled(date, startText, endText) && !TimesParse(startText, endText)
    ensures r == Err(StartNotBeforeEnd) <==>
      FieldsFilled(date, startText, endText) && TimesParse(startText, endText)
      && ParseTime(Trim(startText)).value >= ParseTime(Trim(endText)).value
    ensures r == Err(TooSoon) <==>
      FieldsFilled(date, startText, endText) && TimesParse(startText, endText)
      && ParseTime(Trim(startText)).value < ParseTime(Trim(endText)).value
      && StartInstant(date.value, ParseTime(Trim(startText)).value)
         < now.minute + MinutesPerDay + (if now.subMinute then 1 else 0)
    ensures r == Err(TooFar) <==>
      FieldsFilled(date, startText, endText) && TimesParse(startText, endText)
      && ParseTime(Trim(startText)).value < ParseTime(Trim(endText)).value
      && now.minute + MinutesPerDay + (if now.subMinute then 1 else 0)
         <= StartInstant(date.value, ParseTime(Trim(startText)).value)
      && StartInstant(date.value, ParseTime(Trim(startText)).value) > now.minute + MinutesPerWeek
  {
    var start := Trim(startText);
    var end := Trim(endText);
    if date.None? || start == "" || end == "" then Err(MissingField)
    else match (ParseTime(start), ParseTime(end))
      case (Some(s), Some(e)) =>
        if !(s < e) then Err(StartNotBeforeEnd)
        else
          var reservationStart := StartInstant(date.value, s);
          // isBefore(now.plusHours(24)), with `now` possibly past the minute mark
          if reservationStart < now.minute + MinutesPerDay
             || (reservationStart == now.minute + MinutesPerDay && now.subMinute)
          then Err(TooSoon)
          // isAfter(now.plusDays(7))
          else if reservationStart > now.minute + MinutesPerWeek then Err(TooFar)
          else Ok(())
      case _ => Err(BadTimeFormat)
  }

  /** The boundaries: exactly 24 hours ahead and exactly 7 days ahead are
      accepted, one minute less and one minute more are refused. */
  lemma ValidateBoundaries(date: Date, s: MinuteOfDay, e: MinuteOfDay, nowMinute: int)
    requires s < e
    ensures StartInstant(date, s) == nowMinute + MinutesPerDay ==>
      Validate(Some(date), TimeText(s), TimeText(e), Now(nowMinute, false)) == Ok(())
    ensures StartInstant(date, s) == nowMinute + MinutesPerDay - 1 ==>
      Validate(Some(date), TimeText(s), TimeText(e), Now(nowMinute, false)) == Err(TooSoon)
    ensures StartInstant(date, s) == nowMinute + MinutesPerWeek ==>
      Validate(Some(date), TimeText(s), TimeText(e), Now(nowMinute, false)) == Ok(())
    ensures StartInstant(date, s) == nowMinute + MinutesPerWeek + 1 ==>
      Validate(Some(date), TimeText(s), TimeText(e), Now(nowMinute, false)) == Err(TooFar)
    ensures StartInstant(date, s) == nowMinute + MinutesPerDay ==>
      Validate(Some(date), TimeText(s), TimeText(e), Now(nowMinute, true)) == Err(TooSoon)
  {
    TimeTextRoundTrip(s, TimeText(s));
    TimeTextRoundTrip(e, TimeText(e));
    TrimTimeText(s);
    TrimTimeText(e);
  }

  lemma TrimTimeText(m: MinuteOfDay)
    ensures Trim(TimeText(m)) == TimeText(m)
  {
    var t := TimeText(m);
    assert !IsTrimmable(t[0]) && !IsTrimmable(t[4]);
    assert TrimLeft(t) == t;
    assert TrimRight(t) == t;
  }

  /** Equal start and end times are refused, whatever the date and clock. */
  lemma ValidateRejectsEqualTimes(date: Option<Date>, t: string, now: Now)
    requires date.Some? && !IsBlank(t)
    ensures Validate(date, t, t, now).Err?
    ensures IsTimeText(Trim(t)) ==> Validate(date, t, t, now) == Err(StartNotBeforeEnd)
  {
  }

  /** Once the fields are filled, parse and are ordered, the two window
      reasons are exactly the two ways of missing the window: too soon is
      below its lower bound, too far above its upper bound. */
  lemma WindowReasons(date: Date, startText: string, endText: string, now: Now)
    requires FieldsFilled(Some(date), startText, endText) && TimesParse(startText, endText)
    requires ParseTime(Trim(startText)).value < ParseTime(Trim(endText)).value
    ensures var r := Validate(Some(date), startText, endText, now);
      var t := StartInstant(date, ParseTime(Trim(startText)).value);
      && (r.Err? <==> !InWindow(t, now))
      && (r == Err(TooSoon) <==> !InWindow(t, now) && t <= now.minute + MinutesPerWeek)
      && (r == Err(TooFar) <==> !InWindow(t, now) && t > now.minute + MinutesPerWeek)
  {
  }

  // ---------------------------------------------------------------------
  // Requests and actions
  // ---------------------------------------------------------------------

  datatype Request =
    | CreateReservation(reservation: Reservation)
    | UpdateReservation(id: int, reservation: Reservation)
    | GetFutureReservations(subscriberId: int)
    | GetReservation(id: int)

  /** `onReserve`: validate, confirm, then send a new reservation and ask for
      the refreshed list. The constructor call passes 0 first and the logged-in
      subscriber's id second, so the id lands in `spotId` and `subscriberId`
      is 0; this is reproduced as written. */
  function OnReserve(date: Option<Date>, startText: string, endText: string, now: Now,
                     loggedInId: int, confirmed: bool): (out: seq<Request>)
    ensures Validate(date, startText, endText, now).Err? ==> out == []
    ensures !confirmed ==> out == []
    ensures out != [] <==> Validate(date, startText, endText, now).Ok? && confirmed
    ensures out != [] ==>
      |out| == 2 && out[0].CreateReservation? && out[1] == GetFutureReservations(loggedInId)
      && out[0].reservation.subscriberId == 0
      && out[0].reservation.spotId == loggedInId
      && out[0].reservation.id == 0 && out[0].reservation.code == 0
      && out[0].reservation.date == date.value
      && out[0].reservation.startTime == Some(Trim(startText))
      && out[0].reservation.endTime == Some(Trim(endText))
  {
    if Validate(date, startText, endText, now).Err? || !confirmed then []
    else
      var r := NewReservation(0, loggedInId, date.value, Some(Trim(startText)), Some(Trim(endText)), 0);
      [CreateReservation(r), GetFutureReservations(loggedInId)]
  }

  /** The reservation branch of `handleServerMessage`: the received record
      becomes the selection only when it belongs to the logged-in subscriber
      and is not canceled; otherwise the selection is cleared. The branch is
      entered through an `instanceof` test, which is false for a null payload,
      so `None` never reaches it in the program; it is kept so that the
      function is total and answers "no selection". */
  function LoadReservation(received: Option<Reservation>, loggedInId: int): (selection: Option<Reservation>)
    ensures selection.Some? <==>
      received.Some? && received.value.subscriberId == loggedInId && !IsCanceled(received.value)
    ensures selection.Some? ==> selection == received
  {
    match received
    case None => None
    case Some(r) => if r.subscriberId != loggedInId || r.startTime == None then None else Some(r)
  }

  /** What the delete button leaves behind: the selection, the requests
      sent, and the error alert shown, if any. */
  datatype DeleteOutcome = DeleteOutcome(selection: Option<Reservation>, requests: seq<Request>, error: Option<string>)

  const NoSelectionError := "You must choose a valid reservation id"

  /** `handleDeleteReservationButton`: with nothing selected an error alert
      is shown and nothing is sent; after confirmation the selected
      reservation is tombstoned, sent as an update under its own id, the list
      is re-requested and the selection is cleared. */
  function Delete(selection: Option<Reservation>, confirmed: bool, loggedInId: int): (out: DeleteOutcome)
    ensures out.error.Some? <==> selection.None?
    ensures selection.None? ==> out == DeleteOutcome(None, [], Some(NoSelectionError))
    ensures selection.Some? && !confirmed ==> out == DeleteOutcome(selection, [], None)
    ensures selection.Some? && confirmed ==>
      out.selection.None? && out.error.None? && |out.requests| == 2
      && out.requests[0] == UpdateReservation(selection.value.id, Apply(selection.value, SetStartTime(None)))
      && out.requests[1] == GetFutureReservations(loggedInId)
  {
    match selection
    case None => DeleteOutcome(None, [], Some(NoSelectionError))
    case Some(r) =>
      if !confirmed then DeleteOutcome(selection, [], None)
      else
        var tombstoned := Apply(r, SetStartTime(None));
        DeleteOutcome(None, [UpdateReservation(r.id, tombstoned), GetFutureReservations(loggedInId)], None)
  }

  /** Loading then deleting cancels a live reservation of the logged-in
      subscriber and nothing else: the update carries the same record with
      only its start time cleared. */
  lemma LoadThenDelete(received: Option<Reservation>, loggedInId: int)
    ensures var out := Delete(LoadReservation(received, loggedInId), true, loggedInId);
      out.requests != [] ==>
        && received.Some?
        && out.requests[0].reservation.subscriberId == loggedInId
        && !IsCanceled(received.value)
        && IsCanceled(out.requests[0].reservation)
        && out.requests[0].reservation == received.value.(startTime := None)
  {
  }

  /** What the load button does with the reservation-id field. */
  datatype LoadOutcome =
    | ShowIdWarning        // the "valid reservation ID" warning is shown, nothing is sent
    | SendLoad(request: Request)
    | ParseThrows          // `Integer.parseInt` throws on the UI thread: nothing is sent

  /** `handleLoadButton`: the trimmed field must be one or more digits; its
      value is then parsed as an `int` and requested from the server. */
  function OnLoad(fieldText: string): (o: LoadOutcome)
    ensures var t := Trim(fieldText);
      && (o == ShowIdWarning <==> t == [] || !AllDigits(t))
      && (o.SendLoad? <==> t != [] && AllDigits(t) && ParseDigits(t) <= IntMax)
      && (o.SendLoad? ==> o.request == GetReservation(ParseDigits(t)) && 0 <= o.request.id <= IntMax)
  {
    var t := Trim(fieldText);
    if t == [] || !AllDigits(t) then ShowIdWarning
    else if ParseDigits(t) <= IntMax then SendLoad(GetReservation(ParseDigits(t)))
    else ParseThrows
  }

  /** Typing the decimal text of any id the server can hold requests exactly
      that reservation. */
  lemma LoadRequestsTypedId(id: nat)
    requires id <= IntMax
    ensures OnLoad(NatToString(id)) == SendLoad(GetReservation(id))
  {
    var t := NatToString(id);
    TrimUntouched(t);
    ParseNatToString(id);
  }
}
