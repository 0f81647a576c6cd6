/** The reservation record of `logic.Reservation`. A null start time is the
    cancellation tombstone: both the subscriber's delete and the nightly
    expiry pass cancel a reservation by clearing it rather than deleting the
    record. `subscriberId`, `spotId` and `date` are `final` in the class; the
    other four fields have setters. */
module Reservations {
  import opened Wrappers
  import opened Calendar

  datatype Reservation = Reservation(
    id: int,
    subscriberId: int,
    spotId: int,
    date: Date,
    startTime: Option<string>,
    endTime: Option<string>,
    code: int)

  predicate IsCanceled(r: Reservation) { r.startTime.None? }

  /** The six-argument constructor; `id` keeps its default 0 until the store
      assigns one. Note the parameter order: subscriber first, spot second. */
  function NewReservation(subscriberId: int, spotId: int, date: Date,
                          startTime: Option<string>, endTime: Option<string>, code: int): (r: Reservation)
    ensures r.id == 0
    ensures r.subscriberId == subscriberId && r.spotId == spotId && r.date == date
    ensures r.startTime == startTime && r.endTime == endTime && r.code == code
  {
    Reservation(0, subscriberId, spotId, date, startTime, endTime, code)
  }

  /** `getSpot()`. */
  function GetSpot(r: Reservation): int { r.spotId }

  /** The four setters of the class. */
  datatype Setter =
    | SetId(id: int)
    | SetCode(code: int)
    | SetStartTime(startTime: Option<string>)
    | SetEndTime(endTime: Option<string>)

  /** One setter call: its own field takes the new value, every other field is
      left as it was. */
  function Apply(r: Reservation, s: Setter): (r': Reservation)
    ensures r'.subscriberId == r.subscriberId && r'.spotId == r.spotId && r'.date == r.date
    ensures r'.id == (if s.SetId? then s.id else r.id)
    ensures r'.code == (if s.SetCode? then s.code else r.code)
    ensures r'.startTime == (if s.SetStartTime? then s.startTime else r.startTime)
    ensures r'.endTime == (if s.SetEndTime? then s.endTime else r.endTime)
  {
    match s
    case SetId(v) => r.(id := v)
    case SetCode(v) => r.(code := v)
    case SetStartTime(v) => r.(startTime := v)
    case SetEndTime(v) => r.(endTime := v)
  }

  /** A sequence of setter calls, in order. */
  function ApplyAll(r: Reservation, ss: seq<Setter>): Reservation
    decreases |ss|
  {
    if ss == [] then r else ApplyAll(Apply(r, ss[0]), ss[1..])
  }

  /** The final fields survive any sequence of setter calls. */
  lemma {:induction false} FinalFieldsNeverChange(r: Reservation, ss: seq<Setter>)
    ensures ApplyAll(r, ss).subscriberId == r.subscriberId
    ensures ApplyAll(r, ss).spotId == r.spotId
    ensures ApplyAll(r, ss).date == r.date
    decreases |ss|
  {
    if ss != [] {
      FinalFieldsNeverChange(Apply(r, ss[0]), ss[1..]);
    }
  }

  /** After a setter sequence, the start time is the last value written to it. */
  lemma {:induction false} LastStartTimeWins(r: Reservation, ss: seq<Setter>, v: Option<string>)
    requires ss != [] && ss[|ss| - 1] == SetStartTime(v)
    ensures ApplyAll(r, ss).startTime == v
    decreases |ss|
  {
    if |ss| > 1 {
      LastStartTimeWins(Apply(r, ss[0]), ss[1..], v);
    }
  }
}
