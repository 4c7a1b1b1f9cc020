/** The in-memory store: four maps from id to row and four id counters,
    updated in place by its methods, seeded with the sample catalogue on
    construction. */
module MemStore {
  import opened Schema
  import opened Storage
  import opened Utils
  import opened SampleData

  class MemStorage {
    var barbers: map<int, Barber>
    var services: map<int, Service>
    var timeSlots: map<int, TimeSlot>
    var appointments: map<int, Appointment>

    /** The id the next create of each kind hands out. */
    var barberCurrentId: int
    var serviceCurrentId: int
    var timeSlotCurrentId: int
    var appointmentCurrentId: int

    /** The store's fields read as tables. */
    ghost function State(): Tables
      reads this
    {
      Tables(barbers, services, timeSlots, appointments,
             barberCurrentId, serviceCurrentId, timeSlotCurrentId, appointmentCurrentId)
    }

    ghost predicate Valid()
      reads this
    {
      State().Valid()
    }

    /** Empty maps, every counter at 1, then the sample catalogue, its slots
        dated `today` and `tomorrow` as the clock reports them. */
    constructor(today: CalendarDate, tomorrow: CalendarDate)
      requires ValidCalendarDate(today) && ValidCalendarDate(tomorrow)
      ensures Valid()
      ensures State() == MemSample(FormatDate(today), FormatDate(tomorrow))
    {
      barbers := map[];
      services := map[];
      timeSlots := map[];
      appointments := map[];
      barberCurrentId := 1;
      serviceCurrentId := 1;
      timeSlotCurrentId := 1;
      appointmentCurrentId := 1;
      new;
      InitializeData(today, tomorrow);
    }

    /** Creates the roster, then the services, then, for each seeded time,
        the three slots of today followed by the three of tomorrow. */
    method InitializeData(today: CalendarDate, tomorrow: CalendarDate)
      requires Valid()
      requires ValidCalendarDate(today) && ValidCalendarDate(tomorrow)
      modifies this
      ensures Valid()
      ensures State() == Seed(old(State()), SeedBarbers(false), SeedServices,
                              MemSlotOrder(SeedTimes, FormatDate(today), FormatDate(tomorrow)))
    {
      CreateBarbers(SeedBarbers(false));
      CreateServices(SeedServices);
      var todayFormatted := FormatDate(today);
      var tomorrowFormatted := FormatDate(tomorrow);
      CreateSlotsPerTime(SeedTimes, todayFormatted, tomorrowFormatted);
    }

    /** `barbers.forEach(b => this.createBarber(b))`. */
    method CreateBarbers(roster: seq<InsertBarber>)
      requires Valid()
      modifies this
      ensures Valid()
      ensures State() == AddBarbers(old(State()), roster)
    {
      ghost var t := State();
      var i := 0;
      while i < |roster|
        invariant 0 <= i <= |roster|
        invariant Valid()
        invariant State() == AddBarbers(t, roster[..i])
      {
        var _ := CreateBarber(roster[i]);
        AddBarbersSnoc(t, roster[..i], roster[i]);
        assert roster[..i + 1] == roster[..i] + [roster[i]];
        i := i + 1;
      }
      assert roster[..i] == roster;
    }

    /** `services.forEach(s => this.createService(s))`. */
    method CreateServices(catalogue: seq<InsertService>)
      requires Valid()
      modifies this
      ensures Valid()
      ensures State() == AddServices(old(State()), catalogue)
    {
      ghost var t := State();
      var i := 0;
      while i < |catalogue|
        invariant 0 <= i <= |catalogue|
        invariant Valid()
        invariant State() == AddServices(t, catalogue[..i])
      {
        var _ := CreateService(catalogue[i]);
        AddServicesSnoc(t, catalogue[..i], catalogue[i]);
        assert catalogue[..i + 1] == catalogue[..i] + [catalogue[i]];
        i := i + 1;
      }
      assert catalogue[..i] == catalogue;
    }

    /** `times.forEach(time => ...)`: one block of six slots per time. */
    method CreateSlotsPerTime(times: seq<string>, todayFormatted: string, tomorrowFormatted: string)
      requires Valid()
      modifies this
      ensures Valid()
      ensures State() == AddTimeSlots(old(State()), MemSlotOrder(times, todayFormatted, tomorrowFormatted))
    {
      ghost var t := State();
      var i := 0;
      while i < |times|
        invariant 0 <= i <= |times|
        invariant Valid()
        invariant State() == AddTimeSlots(t, MemSlotOrder(times[..i], todayFormatted, tomorrowFormatted))
      {
        ghost var done := MemSlotOrder(times[..i], todayFormatted, tomorrowFormatted);
        CreateSlotsAt(times[i], todayFormatted, tomorrowFormatted);
        AddTimeSlotsAppend(t, done, MemBlock(times[i], todayFormatted, tomorrowFormatted));
        assert times[..i + 1][..i] == times[..i];
        i := i + 1;
      }
      assert times[..i] == times;
    }

    /** The body run for one time: three creates for barbers 1, 2, 3 today,
        then the same three tomorrow through `[1, 2, 3].forEach`. */
    method CreateSlotsAt(time: string, todayFormatted: string, tomorrowFormatted: string)
      requires Valid()
      modifies this
      ensures Valid()
      ensures State() == AddTimeSlots(old(State()), MemBlock(time, todayFormatted, tomorrowFormatted))
    {
      ghost var t := State();
      var _ := CreateTimeSlot(InsertTimeSlot(1, time, todayFormatted, Some(true)));
      AddTimeSlotsSnoc(t, SlotsUpTo(time, todayFormatted, 0), SeedSlot(1, time, todayFormatted));
      assert State() == AddTimeSlots(t, SlotsUpTo(time, todayFormatted, 1));
      var _ := CreateTimeSlot(InsertTimeSlot(2, time, todayFormatted, Some(true)));
      AddTimeSlotsSnoc(t, SlotsUpTo(time, todayFormatted, 1), SeedSlot(2, time, todayFormatted));
      assert State() == AddTimeSlots(t, SlotsUpTo(time, todayFormatted, 2));
      var _ := CreateTimeSlot(InsertTimeSlot(3, time, todayFormatted, Some(true)));
      AddTimeSlotsSnoc(t, SlotsUpTo(time, todayFormatted, 2), SeedSlot(3, time, todayFormatted));
      ghost var today := SlotsUpTo(time, todayFormatted, 3);
      assert State() == AddTimeSlots(t, today);
      CreateSlotsOn(time, tomorrowFormatted);
      AddTimeSlotsAppend(t, today, SlotsUpTo(time, tomorrowFormatted, 3));
      MemBlockByDate(time, todayFormatted, tomorrowFormatted);
    }

    /** `[1, 2, 3].forEach(barberId => createTimeSlot(...))` for one time and
        date. */
    method CreateSlotsOn(time: string, date: string)
      requires Valid()
      modifies this
      ensures Valid()
      ensures State() == AddTimeSlots(old(State()), SlotsUpTo(time, date, 3))
    {
      ghost var t := State();
      var barberId := 1;
      while barberId <= 3
        invariant 1 <= barberId <= 4
        invariant Valid()
        invariant State() == AddTimeSlots(t, SlotsUpTo(time, date, barberId - 1))
      {
        var slot := InsertTimeSlot(barberId, time, date, Some(true));
        var _ := CreateTimeSlot(slot);
        AddTimeSlotsSnoc(t, SlotsUpTo(time, date, barberId - 1), slot);
        barberId := barberId + 1;
      }
    }

    /** `getBarbers()`: every barber, in insertion order. */
    method GetBarbers() returns (r: seq<Barber>)
      requires Valid()
      ensures |r| == |barbers|
      ensures forall k :: 0 <= k < |r| ==> k + 1 in barbers && barbers[k + 1] == r[k] && r[k].id == k + 1
    {
      r := Values(barbers, barberCurrentId);
      CardinalityOfDense(barbers, barberCurrentId);
    }

    /** `getBarber(id)`: the barber stored under `id`, if any. */
    method GetBarber(id: int) returns (r: Option<Barber>)
      requires Valid()
      ensures r.Some? <==> 1 <= id < barberCurrentId
      ensures r.Some? ==> id in barbers && r.value == barbers[id] && r.value.id == id
    {
      r := Get(barbers, id);
    }

    /** `createBarber(ins)`: the insert under the next id, counter moved on. */
    method CreateBarber(ins: InsertBarber) returns (b: Barber)
      requires Valid()
      modifies this
      ensures Valid()
      ensures State() == AddBarber(old(State()), ins)
      ensures b.id == old(barberCurrentId) && b.id !in old(barbers)
      ensures BarberInsert(b) == ins.(available := Some(DefaultTrue(ins.available)))
      ensures b in barbers.Values
    {
      ghost var t := State();
      var id := barberCurrentId;
      barberCurrentId := barberCurrentId + 1;
      b := BarberRow(ins, id);
      barbers := barbers[id := b];
      AddBarberFresh(t, ins);
      assert barbers[id] == b;
    }

    /** `getServices()`: every service, in insertion order. */
    method GetServices() returns (r: seq<Service>)
      requires Valid()
      ensures |r| == |services|
      ensures forall k :: 0 <= k < |r| ==> k + 1 in services && services[k + 1] == r[k] && r[k].id == k + 1
    {
      r := Values(services, serviceCurrentId);
      CardinalityOfDense(services, serviceCurrentId);
    }

    /** `getService(id)`: the service stored under `id`, if any. */
    method GetService(id: int) returns (r: Option<Service>)
      requires Valid()
      ensures r.Some? <==> 1 <= id < serviceCurrentId
      ensures r.Some? ==> id in services && r.value == services[id] && r.value.id == id
    {
      r := Get(services, id);
    }

    /** `createService(ins)`: the insert under the next id, counter moved on. */
    method CreateService(ins: InsertService) returns (s: Service)
      requires Valid()
      modifies this
      ensures Valid()
      ensures State() == AddService(old(State()), ins)
      ensures s.id == old(serviceCurrentId) && s.id !in old(services)
      ensures ServiceInsert(s) == ins
      ensures s in services.Values
    {
      ghost var t := State();
      var id := serviceCurrentId;
      serviceCurrentId := serviceCurrentId + 1;
      s := ServiceRow(ins, id);
      services := services[id := s];
      AddServiceFresh(t, ins);
      assert services[id] == s;
    }

    /** `getTimeSlots(barberId, date)`: a filter over all slots in insertion
        order. */
    method GetTimeSlots(barberId: int, date: string) returns (r: seq<TimeSlot>)
      requires Valid()
      ensures r == TimeSlotsFor(State(), barberId, date)
      ensures IdsIncreasing(r)
      ensures forall k :: 0 <= k < |r| ==>
                r[k].barberId == barberId && r[k].date == date && r[k].id in timeSlots && timeSlots[r[k].id] == r[k]
      ensures forall id :: id in timeSlots && timeSlots[id].barberId == barberId && timeSlots[id].date == date
                ==> timeSlots[id] in r
    {
      var all := Values(timeSlots, timeSlotCurrentId);
      r := [];
      var i := 0;
      while i < |all|
        invariant 0 <= i <= |all|
        invariant r == SlotsOf(all[..i], barberId, date)
      {
        assert all[..i + 1][..i] == all[..i];
        if all[i].barberId == barberId && all[i].date == date {
          r := r + [all[i]];
        }
        i := i + 1;
      }
      assert all[..i] == all;
      TimeSlotsForExact(State(), barberId, date);
    }

    /** `getTimeSlot(id)`: the slot stored under `id`, if any. */
    method GetTimeSlot(id: int) returns (r: Option<TimeSlot>)
      requires Valid()
      ensures r.Some? <==> 1 <= id < timeSlotCurrentId
      ensures r.Some? ==> id in timeSlots && r.value == timeSlots[id] && r.value.id == id
    {
      r := Get(timeSlots, id);
    }

    /** `createTimeSlot(ins)`: the insert under the next id, counter moved on. */
    method CreateTimeSlot(ins: InsertTimeSlot) returns (s: TimeSlot)
      requires Valid()
      modifies this
      ensures Valid()
      ensures State() == AddTimeSlot(old(State()), ins)
      ensures s.id == old(timeSlotCurrentId) && s.id !in old(timeSlots)
      ensures TimeSlotInsert(s) == ins.(available := Some(DefaultTrue(ins.available)))
      ensures s in timeSlots.Values
    {
      ghost var t := State();
      var id := timeSlotCurrentId;
      timeSlotCurrentId := timeSlotCurrentId + 1;
      s := TimeSlotRow(ins, id);
      timeSlots := timeSlots[id := s];
      AddTimeSlotFresh(t, ins);
      assert timeSlots[id] == s;
    }

    /** `updateTimeSlotAvailability(id, available)`: nothing for an unknown id;
        otherwise the slot with its flag replaced, stored back under `id`. */
    method UpdateTimeSlotAvailability(id: int, available: bool) returns (r: Option<TimeSlot>)
      requires Valid()
      modifies this
      ensures Valid()
      ensures State() == SetAvailability(old(State()), id, available)
      ensures r.None? <==> id !in old(timeSlots)
      ensures r.Some? ==> id in timeSlots && r.value == timeSlots[id] && r.value.available == available
      ensures r.Some? ==> r.value == old(timeSlots[id]).(available := available)
    {
      var found := Get(timeSlots, id);
      if found.None? {
        return None;
      }
      var updated := found.value.(available := available);
      timeSlots := timeSlots[id := updated];
      r := Some(updated);
    }

    /** `getAppointments()`: every appointment, in insertion order. */
    method GetAppointments() returns (r: seq<Appointment>)
      requires Valid()
      ensures |r| == |appointments|
      ensures forall k :: 0 <= k < |r| ==> k + 1 in appointments && appointments[k + 1] == r[k] && r[k].id == k + 1
    {
      r := Values(appointments, appointmentCurrentId);
      CardinalityOfDense(appointments, appointmentCurrentId);
    }

    /** `getAppointment(id)`: the appointment stored under `id`, if any. */
    method GetAppointment(id: int) returns (r: Option<Appointment>)
      requires Valid()
      ensures r.Some? <==> 1 <= id < appointmentCurrentId
      ensures r.Some? ==> id in appointments && r.value == appointments[id] && r.value.id == id
    {
      r := Get(appointments, id);
    }

    /** `createAppointment(ins)` at clock reading `now`: store the appointment
        under the next id, then mark the first of the barber's slots on that
        date at that time, if any, as taken. */
    method CreateAppointment(ins: InsertAppointment, now: Timestamp) returns (a: Appointment)
      requires Valid()
      modifies this
      ensures Valid()
      ensures State() == Storage.CreateAppointment(old(State()), ins, now)
      ensures a.id == old(appointmentCurrentId) && a.createdAt == Some(now) && AppointmentInsert(a) == ins
      ensures a.id in appointments && appointments[a.id] == a
    {
      ghost var t := State();
      var id := appointmentCurrentId;
      appointmentCurrentId := appointmentCurrentId + 1;
      a := AppointmentRow(ins, id, now);
      appointments := appointments[id := a];
      AddAppointmentFresh(t, ins, now);
      assert State() == AddAppointment(t, ins, now);
      var slots := GetTimeSlots(ins.barberId, ins.date);
      var matching := FirstAtTime(slots, ins.time);
      if matching.Some? {
        var _ := UpdateTimeSlotAvailability(matching.value.id, false);
      }
    }
  }
}
