/** The nightly expiry pass (`cancelOldReservation.run`): in the first minute
    of a day, every live reservation dated before today is tombstoned and
    written back one record at a time. The store is a sequence of records, the
    fetch may fail, and each record's update carries its own success flag. */
module Expiry {
  import opened Wrappers
  import opened Calendar
  import opened Reservations
  import opened Counting

  /** A record the pass cancels: still live and dated strictly before today. */
  predicate Eligible(r: Reservation, today: Date) {
    !IsCanceled(r) && Before(r.date, today)
  }

  function EligibleOn(today: Date): Reservation -> bool {
    r => Eligible(r, today)
  }

  /** The pass's change to one record: the start time is cleared when the
      record is eligible; every other field is left alone. */
  function ExpireOne(r: Reservation, today: Date): (r': Reservation)
    ensures r'.id == r.id && r'.subscriberId == r.subscriberId && r'.spotId == r.spotId
    ensures r'.date == r.date && r'.endTime == r.endTime && r'.code == r.code
    ensures Eligible(r, today) ==> IsCanceled(r')
    ensures !Eligible(r, today) ==> r' == r
    ensures !Eligible(r', today)
  {
    if Eligible(r, today) then Apply(r, SetStartTime(None)) else r
  }

  /** The fetched list after the loop: the loop mutates the fetched objects
      whether or not their update reaches the store. */
  function Expire(rs: seq<Reservation>, today: Date): (out: seq<Reservation>)
    ensures |out| == |rs|
    ensures forall i :: 0 <= i < |rs| ==> out[i] == ExpireOne(rs[i], today)
  {
    seq(|rs|, i requires 0 <= i < |rs| => ExpireOne(rs[i], today))
  }

  /** The update requests, in list order: one per eligible record, carrying
      that record tombstoned. Records already canceled and records dated today
      or later are not written. */
  function Writes(rs: seq<Reservation>, today: Date): (ws: seq<Reservation>)
    ensures |ws| == |Filter(rs, EligibleOn(today))|
    ensures forall j :: 0 <= j < |ws| ==> IsCanceled(ws[j]) && Before(ws[j].date, today)
    ensures forall i :: 0 <= i < |rs| && Eligible(rs[i], today) ==> ExpireOne(rs[i], today) in ws
    ensures ws == [] <==> forall i :: 0 <= i < |rs| ==> !Eligible(rs[i], today)
  {
    if rs == [] then []
    else
      var rest := Writes(rs[1..], today);
      assert forall i :: 1 <= i < |rs| ==> rs[i] == rs[1..][i - 1];
      if Eligible(rs[0], today) then [ExpireOne(rs[0], today)] + rest else rest
  }

  /** The writes are the eligible records, in order, each tombstoned. */
  lemma {:induction false} WritesAreFilteredExpired(rs: seq<Reservation>, today: Date)
    ensures Writes(rs, today) == Expire(Filter(rs, EligibleOn(today)), today)
  {
    if rs != [] {
      WritesAreFilteredExpired(rs[1..], today);
      var f := Filter(rs[1..], EligibleOn(today));
      assert EligibleOn(today)(rs[0]) == Eligible(rs[0], today);
      if Eligible(rs[0], today) {
        assert Filter(rs, EligibleOn(today)) == [rs[0]] + f;
        ExpireCons(rs[0], f, today);
      } else {
        assert Filter(rs, EligibleOn(today)) == f;
      }
    }
  }

  lemma ExpireCons(r: Reservation, f: seq<Reservation>, today: Date)
    ensures Expire([r] + f, today) == [ExpireOne(r, today)] + Expire(f, today)
  {
    var a := Expire([r] + f, today);
    var b := [ExpireOne(r, today)] + Expire(f, today);
    assert |a| == |b|;
    forall i | 0 <= i < |a| ensures a[i] == b[i] {
      if i > 0 { assert ([r] + f)[i] == f[i - 1]; }
    }
  }

  /** The store after the pass: a record changes only when it was eligible and
      its own update succeeded, and it then is that record with the start time
      cleared; a record stays eligible exactly when its update failed. */
  function StoreAfter(rs: seq<Reservation>, today: Date, ok: seq<bool>): (out: seq<Reservation>)
    requires |ok| == |rs|
    ensures |out| == |rs|
    ensures forall i :: 0 <= i < |rs| && out[i] != rs[i] ==> ok[i] && Eligible(rs[i], today)
    ensures forall i :: 0 <= i < |rs| && ok[i] && Eligible(rs[i], today) ==>
      out[i] == rs[i].(startTime := None)
    ensures forall i :: 0 <= i < |rs| ==> (Eligible(out[i], today) <==> Eligible(rs[i], today) && !ok[i])
  {
    seq(|rs|, i requires 0 <= i < |rs| => if ok[i] then ExpireOne(rs[i], today) else rs[i])
  }

  datatype Outcome = Outcome(
    fetched: bool,                 // whether the store was read
    writes: seq<Reservation>,      // the update requests, in order
    store: seq<Reservation>,       // the store afterwards
    sleepMinutes: nat)             // how long the run then sleeps

  /** One run. `fetchSucceeds` false stands for the fetch throwing, which
      returns at once without sleeping. Only the time of day is checked: the
      pass runs every midnight, not only on the first day of the month. */
  function Run(now: DateTime, store: seq<Reservation>, fetchSucceeds: bool, ok: seq<bool>): (o: Outcome)
    requires |ok| == |store|
    ensures now.minuteOfDay != 0 ==> o == Outcome(false, [], store, 60)
    ensures now.minuteOfDay == 0 && !fetchSucceeds ==> o == Outcome(true, [], store, 0)
    ensures now.minuteOfDay == 0 && fetchSucceeds ==>
      o.fetched && o.writes == Writes(store, now.date) && o.sleepMinutes == MinutesPerDay
    ensures |o.store| == |store|
    ensures forall i :: 0 <= i < |store| ==>
      o.store[i].id == store[i].id && o.store[i].subscriberId == store[i].subscriberId
      && o.store[i].spotId == store[i].spotId && o.store[i].date == store[i].date
      && o.store[i].endTime == store[i].endTime && o.store[i].code == store[i].code
    ensures forall i :: 0 <= i < |store| && !Eligible(store[i], now.date) ==> o.store[i] == store[i]
    ensures forall i :: 0 <= i < |store| && !ok[i] ==> o.store[i] == store[i]
    ensures now.minuteOfDay == 0 && fetchSucceeds ==>
      forall i :: 0 <= i < |store| && ok[i] && Before(store[i].date, now.date) ==> IsCanceled(o.store[i])
  {
    if now.minuteOfDay != 0 then Outcome(false, [], store, 60)
    else if !fetchSucceeds then Outcome(true, [], store, 0)
    else
      var today := now.date;
      Outcome(true, Writes(store, today), StoreAfter(store, today, ok), MinutesPerDay)
  }

  /** A second pass over the fetched list the first pass left behind writes
      nothing. */
  lemma ExpireIdempotent(rs: seq<Reservation>, today: Date)
    ensures Writes(Expire(rs, today), today) == []
    ensures Expire(Expire(rs, today), today) == Expire(rs, today)
  {
  }

  /** A second pass over the store writes exactly the records whose first
      update failed: one per eligible record with a false flag. */
  lemma {:induction false} SecondPassRetriesFailures(rs: seq<Reservation>, today: Date, ok: seq<bool>)
    requires |ok| == |rs|
    ensures |Writes(StoreAfter(rs, today, ok), today)| == FailedCount(rs, today, ok)
    ensures (forall i :: 0 <= i < |rs| ==> ok[i]) ==> Writes(StoreAfter(rs, today, ok), today) == []
  {
    if rs != [] {
      var after := StoreAfter(rs, today, ok);
      assert after[1..] == StoreAfter(rs[1..], today, ok[1..]);
      SecondPassRetriesFailures(rs[1..], today, ok[1..]);
    }
  }

  /** How many eligible records have a failed update. */
  function FailedCount(rs: seq<Reservation>, today: Date, ok: seq<bool>): nat
    requires |ok| == |rs|
  {
    if rs == [] then 0
    else (if Eligible(rs[0], today) && !ok[0] then 1 else 0) + FailedCount(rs[1..], today, ok[1..])
  }

  /** A record's fate depends on its own flag alone: another record's failed
      update changes nothing about it, and the list of writes does not depend
      on the flags at all. */
  lemma FailureIsolated(rs: seq<Reservation>, today: Date, ok1: seq<bool>, ok2: seq<bool>, i: int)
    requires |ok1| == |rs| && |ok2| == |rs| && 0 <= i < |rs| && ok1[i] == ok2[i]
    ensures StoreAfter(rs, today, ok1)[i] == StoreAfter(rs, today, ok2)[i]
    ensures ok1[i] && Eligible(rs[i], today) ==> IsCanceled(StoreAfter(rs, today, ok2)[i])
  {
  }
}
