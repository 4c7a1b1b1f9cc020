/** The storage interface's behaviour as functions of the stored tables. Both
    stores keep four id-keyed tables and, per table, the id its next insert
    receives; every operation of the interface is a function of that state.
    Iterating a table follows insertion order, which is ascending id order
    because ids are handed out in increasing order and nothing is deleted. */
module Storage {
  import opened Schema

  datatype Tables = Tables(
    barbers: map<int, Barber>,
    services: map<int, Service>,
    timeSlots: map<int, TimeSlot>,
    appointments: map<int, Appointment>,
    barberNext: int,
    serviceNext: int,
    timeSlotNext: int,
    appointmentNext: int)
  {
    /** Each table holds exactly the ids 1 .. next-1, each under its own id. */
    ghost predicate Valid() {
      && Dense(barbers, barberNext) && (forall id :: id in barbers ==> barbers[id].id == id)
      && Dense(services, serviceNext) && (forall id :: id in services ==> services[id].id == id)
      && Dense(timeSlots, timeSlotNext) && (forall id :: id in timeSlots ==> timeSlots[id].id == id)
      && Dense(appointments, appointmentNext)
      && (forall id :: id in appointments ==> appointments[id].id == id)
    }
  }

  ghost predicate Dense<T>(m: map<int, T>, next: int) {
    next >= 1 && forall id :: id in m <==> 1 <= id < next
  }

  /** Freshly created tables: empty, every counter at 1. */
  function Empty(): Tables {
    Tables(map[], map[], map[], map[], 1, 1, 1, 1)
  }

  /** The entries of a table in insertion order (ids 1, 2, ..., next-1). */
  function Values<T>(m: map<int, T>, next: int): (r: seq<T>)
    requires next >= 1 && forall id :: 1 <= id < next ==> id in m
    ensures |r| == next - 1
    ensures forall k :: 0 <= k < |r| ==> r[k] == m[k + 1]
    decreases next
  {
    if next == 1 then [] else Values(m, next - 1) + [m[next - 1]]
  }

  /** A table holding exactly ids 1 .. next-1 has next-1 entries, so listing
      it in id order lists every entry once. */
  lemma {:induction false} CardinalityOfDense<T>(m: map<int, T>, next: int)
    requires Dense(m, next)
    ensures |m| == next - 1
    decreases next
  {
    if next == 1 {
      assert m == map[] by {
        forall id ensures id !in m { }
      }
    } else {
      var rest := m - {next - 1};
      CardinalityOfDense(rest, next - 1);
      assert m.Keys == rest.Keys + {next - 1};
    }
  }

  /** `Map.get`: the entry, or nothing for an id never inserted. */
  function Get<T>(m: map<int, T>, id: int): (r: Option<T>)
    ensures r.Some? <==> id in m
    ensures r.Some? ==> r.value == m[id]
  {
    if id in m then Some(m[id]) else None
  }

  /** A lookup finds something exactly for the ids handed out so far. */
  lemma GetAbsentExactlyForUnknownIds<T>(m: map<int, T>, next: int, id: int)
    requires Dense(m, next)
    ensures Get(m, id).None? <==> id < 1 || next <= id
  {
  }

  // ---- inserts --------------------------------------------------------

  /** `createBarber`: the new row under the counter's value, the counter
      moved on, the other tables untouched. */
  function AddBarber(t: Tables, ins: InsertBarber): (u: Tables)
    ensures Get(u.barbers, t.barberNext) == Some(BarberRow(ins, t.barberNext))
    ensures u.barberNext == t.barberNext + 1
    ensures u == t.(barbers := u.barbers, barberNext := u.barberNext)
  {
    t.(barbers := t.barbers[t.barberNext := BarberRow(ins, t.barberNext)], barberNext := t.barberNext + 1)
  }

  /** `createService`, likewise. */
  function AddService(t: Tables, ins: InsertService): (u: Tables)
    ensures Get(u.services, t.serviceNext) == Some(ServiceRow(ins, t.serviceNext))
    ensures u.serviceNext == t.serviceNext + 1
    ensures u == t.(services := u.services, serviceNext := u.serviceNext)
  {
    t.(services := t.services[t.serviceNext := ServiceRow(ins, t.serviceNext)], serviceNext := t.serviceNext + 1)
  }

  /** `createTimeSlot`, likewise. */
  function AddTimeSlot(t: Tables, ins: InsertTimeSlot): (u: Tables)
    ensures Get(u.timeSlots, t.timeSlotNext) == Some(TimeSlotRow(ins, t.timeSlotNext))
    ensures u.timeSlotNext == t.timeSlotNext + 1
    ensures u == t.(timeSlots := u.timeSlots, timeSlotNext := u.timeSlotNext)
  {
    t.(timeSlots := t.timeSlots[t.timeSlotNext := TimeSlotRow(ins, t.timeSlotNext)],
       timeSlotNext := t.timeSlotNext + 1)
  }

  /** The insert half of `createAppointment`, likewise, stamped with `now`. */
  function AddAppointment(t: Tables, ins: InsertAppointment, now: Timestamp): (u: Tables)
    ensures Get(u.appointments, t.appointmentNext) == Some(AppointmentRow(ins, t.appointmentNext, now))
    ensures u.appointments[t.appointmentNext].createdAt == Some(now)
    ensures u.appointmentNext == t.appointmentNext + 1
    ensures u == t.(appointments := u.appointments, appointmentNext := u.appointmentNext)
  {
    t.(appointments := t.appointments[t.appointmentNext := AppointmentRow(ins, t.appointmentNext, now)],
       appointmentNext := t.appointmentNext + 1)
  }

  /** A create hands out the counter's current value, which no existing entry
      holds, then moves the counter on; afterwards a lookup of that id returns
      the new row, every earlier entry is as it was, and the other tables are
      untouched. */
  lemma AddBarberFresh(t: Tables, ins: InsertBarber)
    requires t.Valid()
    ensures var u := AddBarber(t, ins);
      && u.Valid()
      && t.barberNext !in t.barbers
      && Get(u.barbers, t.barberNext) == Some(BarberRow(ins, t.barberNext))
      && u.barberNext == t.barberNext + 1
      && (forall id :: id in t.barbers ==> id in u.barbers && u.barbers[id] == t.barbers[id])
      && u.barbers.Keys == t.barbers.Keys + {t.barberNext}
      && u == t.(barbers := u.barbers, barberNext := u.barberNext)
  {
  }

  lemma AddServiceFresh(t: Tables, ins: InsertService)
    requires t.Valid()
    ensures var u := AddService(t, ins);
      && u.Valid()
      && t.serviceNext !in t.services
      && Get(u.services, t.serviceNext) == Some(ServiceRow(ins, t.serviceNext))
      && u.serviceNext == t.serviceNext + 1
      && u.services.Keys == t.services.Keys + {t.serviceNext}
      && (forall id :: id in t.services ==> u.services[id] == t.services[id])
      && u == t.(services := u.services, serviceNext := u.serviceNext)
  {
  }

  lemma AddTimeSlotFresh(t: Tables, ins: InsertTimeSlot)
    requires t.Valid()
    ensures var u := AddTimeSlot(t, ins);
      && u.Valid()
      && t.timeSlotNext !in t.timeSlots
      && Get(u.timeSlots, t.timeSlotNext) == Some(TimeSlotRow(ins, t.timeSlotNext))
      && u.timeSlotNext == t.timeSlotNext + 1
      && u.timeSlots.Keys == t.timeSlots.Keys + {t.timeSlotNext}
      && (forall id :: id in t.timeSlots ==> u.timeSlots[id] == t.timeSlots[id])
      && u == t.(timeSlots := u.timeSlots, timeSlotNext := u.timeSlotNext)
  {
  }

  lemma AddAppointmentFresh(t: Tables, ins: InsertAppointment, now: Timestamp)
    requires t.Valid()
    ensures var u := AddAppointment(t, ins, now);
      && u.Valid()
      && t.appointmentNext !in t.appointments
      && Get(u.appointments, t.appointmentNext) == Some(AppointmentRow(ins, t.appointmentNext, now))
      && u.appointmentNext == t.appointmentNext + 1
      && u.appointments.Keys == t.appointments.Keys + {t.appointmentNext}
      && (forall id :: id in t.appointments ==> u.appointments[id] == t.appointments[id])
      && u == t.(appointments := u.appointments, appointmentNext := u.appointmentNext)
  {
  }

  /** Inserting several rows one after another, in order. */
  function InsertAll<I, T>(m: map<int, T>, next: int, xs: seq<I>, row: (I, int) -> T): map<int, T>
    decreases |xs|
  {
    if xs == [] then m
    else InsertAll(m, next, xs[..|xs| - 1], row)[next + |xs| - 1 := row(xs[|xs| - 1], next + |xs| - 1)]
  }

  /** After inserting xs from `next` on, the k-th of them sits under id next+k
      and the entries below `next` are as they were. */
  lemma {:induction false} InsertAllContents<I, T>(m: map<int, T>, next: int, xs: seq<I>, row: (I, int) -> T)
    requires Dense(m, next)
    ensures var r := InsertAll(m, next, xs, row);
      && Dense(r, next + |xs|)
      && (forall id :: id in m ==> r[id] == m[id])
      && (forall k :: 0 <= k < |xs| ==> r[next + k] == row(xs[k], next + k))
    decreases |xs|
  {
    if xs != [] {
      var init := xs[..|xs| - 1];
      InsertAllContents(m, next, init, row);
      var r := InsertAll(m, next, xs, row);
      forall k | 0 <= k < |xs|
        ensures r[next + k] == row(xs[k], next + k)
      {
        if k < |xs| - 1 {
          assert init[k] == xs[k];
        }
      }
    }
  }

  lemma InsertAllSnoc<I, T>(m: map<int, T>, next: int, xs: seq<I>, x: I, row: (I, int) -> T)
    ensures InsertAll(m, next, xs + [x], row) == InsertAll(m, next, xs, row)[next + |xs| := row(x, next + |xs|)]
  {
    assert (xs + [x])[..|xs|] == xs;
  }

  function AddBarbers(t: Tables, xs: seq<InsertBarber>): Tables {
    t.(barbers := InsertAll(t.barbers, t.barberNext, xs, BarberRow), barberNext := t.barberNext + |xs|)
  }

  function AddServices(t: Tables, xs: seq<InsertService>): Tables {
    t.(services := InsertAll(t.services, t.serviceNext, xs, ServiceRow), serviceNext := t.serviceNext + |xs|)
  }

  function AddTimeSlots(t: Tables, xs: seq<InsertTimeSlot>): Tables {
    t.(timeSlots := InsertAll(t.timeSlots, t.timeSlotNext, xs, TimeSlotRow),
       timeSlotNext := t.timeSlotNext + |xs|)
  }

  /** One more create after a run of creates extends the run. */
  lemma AddBarbersSnoc(t: Tables, xs: seq<InsertBarber>, x: InsertBarber)
    ensures AddBarbers(t, xs + [x]) == AddBarber(AddBarbers(t, xs), x)
  {
    InsertAllSnoc(t.barbers, t.barberNext, xs, x, BarberRow);
  }

  lemma AddServicesSnoc(t: Tables, xs: seq<InsertService>, x: InsertService)
    ensures AddServices(t, xs + [x]) == AddService(AddServices(t, xs), x)
  {
    InsertAllSnoc(t.services, t.serviceNext, xs, x, ServiceRow);
  }

  lemma AddTimeSlotsSnoc(t: Tables, xs: seq<InsertTimeSlot>, x: InsertTimeSlot)
    ensures AddTimeSlots(t, xs + [x]) == AddTimeSlot(AddTimeSlots(t, xs), x)
  {
    InsertAllSnoc(t.timeSlots, t.timeSlotNext, xs, x, TimeSlotRow);
  }

  /** Two batches of slot creates in a row are one batch. */
  lemma {:induction false} AddTimeSlotsAppend(t: Tables, xs: seq<InsertTimeSlot>, ys: seq<InsertTimeSlot>)
    ensures AddTimeSlots(AddTimeSlots(t, xs), ys) == AddTimeSlots(t, xs + ys)
    decreases |ys|
  {
    if ys != [] {
      var init, last := ys[..|ys| - 1], ys[|ys| - 1];
      AddTimeSlotsAppend(t, xs, init);
      AddTimeSlotsSnoc(AddTimeSlots(t, xs), init, last);
      AddTimeSlotsSnoc(t, xs + init, last);
      assert init + [last] == ys;
      assert (xs + init) + [last] == xs + ys;
    } else {
      assert xs + ys == xs;
    }
  }

  /** A batch of slot creates keeps the tables valid, stores the k-th insert
      under id next+k and changes nothing else. */
  lemma AddTimeSlotsContents(t: Tables, xs: seq<InsertTimeSlot>)
    requires t.Valid()
    ensures var u := AddTimeSlots(t, xs);
      && u.Valid()
      && u.timeSlotNext == t.timeSlotNext + |xs|
      && (forall id :: id in t.timeSlots ==> u.timeSlots[id] == t.timeSlots[id])
      && (forall k :: 0 <= k < |xs| ==> u.timeSlots[t.timeSlotNext + k] == TimeSlotRow(xs[k], t.timeSlotNext + k))
      && u == t.(timeSlots := u.timeSlots, timeSlotNext := u.timeSlotNext)
  {
    InsertAllContents(t.timeSlots, t.timeSlotNext, xs, TimeSlotRow);
    var u := AddTimeSlots(t, xs);
    forall id | id in u.timeSlots ensures u.timeSlots[id].id == id {
      if id >= t.timeSlotNext {
        var k := id - t.timeSlotNext;
        assert u.timeSlots[t.timeSlotNext + k] == TimeSlotRow(xs[k], t.timeSlotNext + k);
      }
    }
  }

  lemma AddBarbersContents(t: Tables, xs: seq<InsertBarber>)
    requires t.Valid()
    ensures var u := AddBarbers(t, xs);
      && u.Valid()
      && u.barberNext == t.barberNext + |xs|
      && (forall id :: id in t.barbers ==> u.barbers[id] == t.barbers[id])
      && (forall k :: 0 <= k < |xs| ==> u.barbers[t.barberNext + k] == BarberRow(xs[k], t.barberNext + k))
      && u == t.(barbers := u.barbers, barberNext := u.barberNext)
  {
    InsertAllContents(t.barbers, t.barberNext, xs, BarberRow);
    var u := AddBarbers(t, xs);
    forall id | id in u.barbers ensures u.barbers[id].id == id {
      if id >= t.barberNext {
        var k := id - t.barberNext;
        assert u.barbers[t.barberNext + k] == BarberRow(xs[k], t.barberNext + k);
      }
    }
  }

  lemma AddServicesContents(t: Tables, xs: seq<InsertService>)
    requires t.Valid()
    ensures var u := AddServices(t, xs);
      && u.Valid()
      && u.serviceNext == t.serviceNext + |xs|
      && (forall id :: id in t.services ==> u.services[id] == t.services[id])
      && (forall k :: 0 <= k < |xs| ==> u.services[t.serviceNext + k] == ServiceRow(xs[k], t.serviceNext + k))
      && u == t.(services := u.services, serviceNext := u.serviceNext)
  {
    InsertAllContents(t.services, t.serviceNext, xs, ServiceRow);
    var u := AddServices(t, xs);
    forall id | id in u.services ensures u.services[id].id == id {
      if id >= t.serviceNext {
        var k := id - t.serviceNext;
        assert u.services[t.serviceNext + k] == ServiceRow(xs[k], t.serviceNext + k);
      }
    }
  }

  // ---- time slot queries and the availability update ----------------------

  ghost predicate IdsIncreasing(s: seq<TimeSlot>) {
    forall i, j :: 0 <= i < j < |s| ==> s[i].id < s[j].id
  }

  /** The slots of `slots` for one barber on one date, in their original order. */
  function SlotsOf(slots: seq<TimeSlot>, barberId: int, date: string): (r: seq<TimeSlot>)
    ensures forall x :: x in r <==> x in slots && x.barberId == barberId && x.date == date
    decreases |slots|
  {
    if slots == [] then []
    else
      var init, last := slots[..|slots| - 1], slots[|slots| - 1];
      var r := SlotsOf(init, barberId, date);
      assert forall x :: x in init ==> x in slots;
      r + (if last.barberId == barberId && last.date == date then [last] else [])
  }

  /** Filtering keeps the order: a list in increasing id order filters to one. */
  lemma {:induction false} SlotsOfIncreasing(slots: seq<TimeSlot>, barberId: int, date: string)
    requires IdsIncreasing(slots)
    ensures IdsIncreasing(SlotsOf(slots, barberId, date))
    decreases |slots|
  {
    if slots != [] {
      var init, last := slots[..|slots| - 1], slots[|slots| - 1];
      assert IdsIncreasing(init);
      SlotsOfIncreasing(init, barberId, date);
      var r := SlotsOf(init, barberId, date);
      forall x | x in r
        ensures x.id < last.id
      {
        var k :| 0 <= k < |init| && init[k] == x;
      }
    }
  }

  /** `getTimeSlots(barberId, date)`. */
  function TimeSlotsFor(t: Tables, barberId: int, date: string): (r: seq<TimeSlot>)
    requires t.Valid()
    ensures forall x :: x in r ==> x.barberId == barberId && x.date == date
  {
    SlotsOf(Values(t.timeSlots, t.timeSlotNext), barberId, date)
  }

  /** `getTimeSlots(b, d)` lists exactly the stored slots of barber b on date d,
      each as stored, in insertion (= id) order. */
  lemma TimeSlotsForExact(t: Tables, barberId: int, date: string)
    requires t.Valid()
    ensures var r := TimeSlotsFor(t, barberId, date);
      && IdsIncreasing(r)
      && (forall k :: 0 <= k < |r| ==>
            r[k].barberId == barberId && r[k].date == date
            && r[k].id in t.timeSlots && t.timeSlots[r[k].id] == r[k])
      && (forall id :: (id in t.timeSlots && t.timeSlots[id].barberId == barberId
                         && t.timeSlots[id].date == date) ==> t.timeSlots[id] in r)
  {
    SlotValues(t.timeSlots, t.timeSlotNext);
    SlotsOfIncreasing(Values(t.timeSlots, t.timeSlotNext), barberId, date);
    var r := TimeSlotsFor(t, barberId, date);
    forall k | 0 <= k < |r|
      ensures r[k].barberId == barberId && r[k].date == date
      ensures r[k].id in t.timeSlots && t.timeSlots[r[k].id] == r[k]
    {
      assert r[k] in r;
    }
  }

  /** Listing a slot table whose entries sit under their own ids gives a list
      in increasing id order holding exactly the stored slots. */
  lemma SlotValues(m: map<int, TimeSlot>, next: int)
    requires Dense(m, next) && forall id :: id in m ==> m[id].id == id
    ensures IdsIncreasing(Values(m, next))
    ensures forall x: TimeSlot :: x in Values(m, next) <==> x.id in m && m[x.id] == x
  {
    var vs := Values(m, next);
    forall x | x in vs
      ensures x.id in m && m[x.id] == x
    {
      var k :| 0 <= k < |vs| && vs[k] == x;
    }
    forall x: TimeSlot | x.id in m && m[x.id] == x
      ensures x in vs
    {
      assert vs[x.id - 1] == x;
    }
  }

  /** `Array.prototype.find` on a slot list: the first slot at `time`. */
  function FirstAtTime(slots: seq<TimeSlot>, time: string): (r: Option<TimeSlot>)
    ensures r.None? <==> forall k :: 0 <= k < |slots| ==> slots[k].time != time
    ensures r.Some? ==> exists k :: 0 <= k < |slots| && slots[k] == r.value && r.value.time == time
                                    && forall j :: 0 <= j < k ==> slots[j].time != time
    decreases |slots|
  {
    if slots == [] then None
    else if slots[0].time == time then Some(slots[0])
    else
      var r := FirstAtTime(slots[1..], time);
      assert r.Some? ==> exists k :: 0 <= k < |slots| && slots[k] == r.value && r.value.time == time
                                     && forall j :: 0 <= j < k ==> slots[j].time != time by {
        if r.Some? {
          var k :| 0 <= k < |slots[1..]| && slots[1..][k] == r.value && r.value.time == time
                   && forall j :: 0 <= j < k ==> slots[1..][j].time != time;
          assert slots[k + 1] == r.value;
          forall j | 0 <= j < k + 1 ensures slots[j].time != time {
            if j > 0 { assert slots[j] == slots[1..][j - 1]; }
          }
        }
      }
      r
  }

  /** `getTimeSlot(id)`. */
  function TimeSlotById(t: Tables, id: int): (r: Option<TimeSlot>)
    ensures r.None? <==> id !in t.timeSlots
    ensures r.Some? ==> r.value == t.timeSlots[id]
  {
    Get(t.timeSlots, id)
  }

  /** `updateTimeSlotAvailability(id, available)`: the updated slot, or nothing
      for an unknown id. */
  function UpdatedSlot(t: Tables, id: int, available: bool): (r: Option<TimeSlot>)
    ensures r.None? <==> id !in t.timeSlots
    ensures r.Some? ==> r.value.available == available
    ensures r.Some? ==> r.value.(available := t.timeSlots[id].available) == t.timeSlots[id]
  {
    if id in t.timeSlots then Some(t.timeSlots[id].(available := available)) else None
  }

  /** The tables after `updateTimeSlotAvailability(id, available)`. */
  function SetAvailability(t: Tables, id: int, available: bool): (u: Tables)
    ensures u == t.(timeSlots := u.timeSlots)
    ensures id !in t.timeSlots ==> u == t
    ensures id in t.timeSlots ==> Get(u.timeSlots, id) == UpdatedSlot(t, id, available)
  {
    if id in t.timeSlots then t.(timeSlots := t.timeSlots[id := t.timeSlots[id].(available := available)])
    else t
  }

  /** An unknown id yields nothing and changes nothing; a known id changes that
      slot's flag and nothing else, and the update returns the slot as now stored. */
  lemma SetAvailabilityEffect(t: Tables, id: int, available: bool)
    requires t.Valid()
    ensures var u := SetAvailability(t, id, available);
      && u.Valid()
      && (id !in t.timeSlots ==> UpdatedSlot(t, id, available) == None && u == t)
      && (id in t.timeSlots ==>
            && UpdatedSlot(t, id, available) == Some(u.timeSlots[id])
            && u.timeSlots[id].available == available
            && TimeSlotInsert(u.timeSlots[id]).(available := None) == TimeSlotInsert(t.timeSlots[id]).(available := None)
            && u.timeSlots[id].id == id
            && u.timeSlots.Keys == t.timeSlots.Keys
            && (forall other :: other in t.timeSlots && other != id ==> u.timeSlots[other] == t.timeSlots[other])
            && u == t.(timeSlots := u.timeSlots))
  {
  }

  // ---- the booking cascade -----------------------------------------------

  ghost predicate SlotMatches(s: TimeSlot, barberId: int, date: string, time: string) {
    s.barberId == barberId && s.date == date && s.time == time
  }

  /** `id` is the earliest-inserted slot of `m` for (barberId, date, time). */
  ghost predicate FirstMatchIn(m: map<int, TimeSlot>, id: int, barberId: int, date: string, time: string) {
    && id in m && SlotMatches(m[id], barberId, date, time)
    && forall other :: other in m && SlotMatches(m[other], barberId, date, time) ==> id <= other
  }

  ghost predicate IsFirstMatch(t: Tables, id: int, barberId: int, date: string, time: string) {
    FirstMatchIn(t.timeSlots, id, barberId, date, time)
  }

  /** Taking the first slot at `time` from the barber's slots on `date`, listed
      in id order, finds the earliest-inserted matching slot, as stored, and
      finds nothing exactly when no stored slot matches. */
  lemma FindsFirstMatch(m: map<int, TimeSlot>, next: int, barberId: int, date: string, time: string)
    requires Dense(m, next) && forall id :: id in m ==> m[id].id == id
    ensures var r := FirstAtTime(SlotsOf(Values(m, next), barberId, date), time);
      && (r.None? ==> forall id :: id in m ==> !SlotMatches(m[id], barberId, date, time))
      && (r.Some? ==> r.value.id in m && m[r.value.id] == r.value
                      && FirstMatchIn(m, r.value.id, barberId, date, time))
  {
    SlotValues(m, next);
    SlotsOfIncreasing(Values(m, next), barberId, date);
    var slots := SlotsOf(Values(m, next), barberId, date);
    match FirstAtTime(slots, time)
    case None =>
      forall id | id in m
        ensures !SlotMatches(m[id], barberId, date, time)
      {
        if m[id].barberId == barberId && m[id].date == date {
          assert m[id] in slots;
        }
      }
    case Some(first) =>
      var k :| 0 <= k < |slots| && slots[k] == first && first.time == time
               && forall j :: 0 <= j < k ==> slots[j].time != time;
      assert first in slots;
      forall other | other in m && SlotMatches(m[other], barberId, date, time)
        ensures first.id <= other
      {
        assert m[other] in slots;
        var k' :| 0 <= k' < |slots| && slots[k'] == m[other];
        if k' < k {
          assert slots[k'].time != time;
        }
      }
  }

  /** There is at most one first match. */
  lemma FirstMatchUnique(m: map<int, TimeSlot>, id0: int, barberId: int, date: string, time: string)
    requires FirstMatchIn(m, id0, barberId, date, time)
    ensures forall id :: FirstMatchIn(m, id, barberId, date, time) ==> id == id0
  {
  }

  /** Whenever some stored slot matches, one of the matches is the first. */
  lemma FirstMatchExists(m: map<int, TimeSlot>, next: int, barberId: int, date: string, time: string)
    requires Dense(m, next) && forall id :: id in m ==> m[id].id == id
    ensures (exists id :: id in m && SlotMatches(m[id], barberId, date, time)) ==>
              exists id :: FirstMatchIn(m, id, barberId, date, time)
  {
    FindsFirstMatch(m, next, barberId, date, time);
    var r := FirstAtTime(SlotsOf(Values(m, next), barberId, date), time);
    if r.Some? {
      assert FirstMatchIn(m, r.value.id, barberId, date, time);
    }
  }

  /** The slot half of `createAppointment`: list the barber's slots on that
      date, take the first at that time and, if there is one, mark it taken. */
  function Book(t: Tables, barberId: int, date: string, time: string): (u: Tables)
    requires t.Valid()
    ensures u.Valid()
  {
    match FirstAtTime(TimeSlotsFor(t, barberId, date), time)
    case None => t
    case Some(slot) =>
      SetAvailabilityEffect(t, slot.id, false);
      SetAvailability(t, slot.id, false)
  }

  /** `createAppointment(ins)` at clock reading `now`: store the appointment,
      then run the cascade for its barber, date and time. */
  function CreateAppointment(t: Tables, ins: InsertAppointment, now: Timestamp): (u: Tables)
    requires t.Valid()
    ensures u.Valid()
  {
    AddAppointmentFresh(t, ins, now);
    Book(AddAppointment(t, ins, now), ins.barberId, ins.date, ins.time)
  }

  /** The cascade marks the first matching slot, in insertion order, as
      unavailable and changes nothing else; with no matching slot it changes
      nothing at all. Neither case depends on the slot's previous flag. */
  lemma {:induction false} BookMarksFirstMatch(t: Tables, barberId: int, date: string, time: string)
    requires t.Valid()
    ensures var u := Book(t, barberId, date, time);
      && u.Valid()
      && u == t.(timeSlots := u.timeSlots)
      && (forall id :: id in u.timeSlots <==> id in t.timeSlots)
      && ((forall id :: id in t.timeSlots ==> !SlotMatches(t.timeSlots[id], barberId, date, time)) ==> u == t)
      && (forall id :: IsFirstMatch(t, id, barberId, date, time) ==>
            u.timeSlots == t.timeSlots[id := t.timeSlots[id].(available := false)])
  {
    FindsFirstMatch(t.timeSlots, t.timeSlotNext, barberId, date, time);
    var r := FirstAtTime(TimeSlotsFor(t, barberId, date), time);
    var u := Book(t, barberId, date, time);
    if r.Some? {
      var id0 := r.value.id;
      assert u == SetAvailability(t, id0, false);
      assert u == t.(timeSlots := t.timeSlots[id0 := t.timeSlots[id0].(available := false)]);
      FirstMatchUnique(t.timeSlots, id0, barberId, date, time);
    } else {
      assert u == t;
    }
  }

  /** `createAppointment` always stores the appointment under a fresh id with
      its creation time, whatever the state of the slots; it leaves barbers and
      services alone and touches the slots only through the cascade. */
  lemma CreateAppointmentEffect(t: Tables, ins: InsertAppointment, now: Timestamp)
    requires t.Valid()
    ensures var u := CreateAppointment(t, ins, now);
      && u.Valid()
      && u.appointmentNext == t.appointmentNext + 1
      && t.appointmentNext !in t.appointments
      && u.appointments == t.appointments[t.appointmentNext := AppointmentRow(ins, t.appointmentNext, now)]
      && u.barbers == t.barbers && u.barberNext == t.barberNext
      && u.services == t.services && u.serviceNext == t.serviceNext
      && u.timeSlotNext == t.timeSlotNext
      && u.timeSlots == Book(t, ins.barberId, ins.date, ins.time).timeSlots
  {
    var a := AddAppointment(t, ins, now);
    AddAppointmentFresh(t, ins, now);
    BookMarksFirstMatch(a, ins.barberId, ins.date, ins.time);
    assert a.timeSlots == t.timeSlots && a.timeSlotNext == t.timeSlotNext;
    assert TimeSlotsFor(a, ins.barberId, ins.date) == TimeSlotsFor(t, ins.barberId, ins.date);
  }

  /** Running the cascade again on slots it has already updated changes
      nothing: the same slot is still the first match and is already taken. */
  lemma BookAgainChangesNothing(t: Tables, s: Tables, barberId: int, date: string, time: string)
    requires t.Valid() && s.Valid()
    requires s.timeSlots == Book(t, barberId, date, time).timeSlots
    ensures Book(s, barberId, date, time).timeSlots == s.timeSlots
  {
    FirstMatchExists(t.timeSlots, t.timeSlotNext, barberId, date, time);
    if id0 :| FirstMatchIn(t.timeSlots, id0, barberId, date, time) {
      assert IsFirstMatch(t, id0, barberId, date, time);
      BookMarksFirstMatch(t, barberId, date, time);
      BookTakenAgain(t, s, id0, barberId, date, time);
    } else {
      BookUnmatchedAgain(t, s, barberId, date, time);
    }
  }

  /** With no slot to take, the cascade leaves the slots alone, both times. */
  lemma BookUnmatchedAgain(t: Tables, s: Tables, barberId: int, date: string, time: string)
    requires t.Valid() && s.Valid()
    requires forall id :: id in t.timeSlots ==> !SlotMatches(t.timeSlots[id], barberId, date, time)
    requires s.timeSlots == Book(t, barberId, date, time).timeSlots
    ensures Book(s, barberId, date, time).timeSlots == s.timeSlots
  {
    BookMarksFirstMatch(t, barberId, date, time);
    BookMarksFirstMatch(s, barberId, date, time);
  }

  /** Once the first match is taken, the cascade takes it again, which leaves
      it as it is. */
  lemma BookTakenAgain(t: Tables, s: Tables, id0: int, barberId: int, date: string, time: string)
    requires s.Valid()
    requires IsFirstMatch(t, id0, barberId, date, time)
    requires s.timeSlots == t.timeSlots[id0 := t.timeSlots[id0].(available := false)]
    ensures Book(s, barberId, date, time).timeSlots == s.timeSlots
  {
    FirstMatchIgnoresFlag(t, s, id0, barberId, date, time);
    BookMarksFirstMatch(s, barberId, date, time);
    assert s.timeSlots[id0].(available := false) == s.timeSlots[id0];
    RewriteSameValue(s.timeSlots, id0);
  }

  lemma RewriteSameValue<K, V>(m: map<K, V>, k: K)
    requires k in m
    ensures m[k := m[k]] == m
  {
  }

  /** Whether a slot is the first match does not depend on availability flags. */
  lemma FirstMatchIgnoresFlag(t: Tables, s: Tables, id0: int, barberId: int, date: string, time: string)
    requires IsFirstMatch(t, id0, barberId, date, time)
    requires s.timeSlots == t.timeSlots[id0 := t.timeSlots[id0].(available := false)]
    ensures IsFirstMatch(s, id0, barberId, date, time)
  {
    forall other | other in s.timeSlots && SlotMatches(s.timeSlots[other], barberId, date, time)
      ensures id0 <= other
    {
      if other != id0 {
        assert s.timeSlots[other] == t.timeSlots[other];
      }
    }
  }

  /** Booking the same barber, date and time twice: both appointments are
      stored under consecutive ids, and the second booking finds the slot the
      first one took and leaves the slots as the first one left them. */
  lemma DoubleBookingSucceeds(t: Tables, ins: InsertAppointment, now1: Timestamp, now2: Timestamp)
    requires t.Valid()
    ensures var once := CreateAppointment(t, ins, now1);
      var twice := CreateAppointment(once, ins, now2);
      && twice.appointments[t.appointmentNext] == AppointmentRow(ins, t.appointmentNext, now1)
      && twice.appointments[t.appointmentNext + 1] == AppointmentRow(ins, t.appointmentNext + 1, now2)
      && twice.appointmentNext == t.appointmentNext + 2
      && twice.timeSlots == once.timeSlots
  {
    var once := CreateAppointment(t, ins, now1);
    CreateAppointmentEffect(t, ins, now1);
    CreateAppointmentEffect(once, ins, now2);
    BookAgainChangesNothing(t, once, ins.barberId, ins.date, ins.time);
  }
}
