/** The database-backed store. The four tables and their serial-id sequences
    live in the database; `db` stands for their current contents, each query
    reading it and each insert or update replacing it. */
module DbStore {
  import opened Schema
  import opened Storage
  import opened Utils
  import opened SampleData

  class DatabaseStorage {
    /** What the database holds. */
    var db: Tables

    ghost predicate Valid()
      reads this
    {
      db.Valid()
    }

    /** A store over a database in whatever (consistent) state it is in. */
    constructor(existing: Tables)
      requires existing.Valid()
      ensures Valid() && db == existing
    {
      db := existing;
    }

    /** `getBarbers()`: `select` over the barbers table, in id order. */
    method GetBarbers() returns (r: seq<Barber>)
      requires Valid()
      ensures |r| == |db.barbers|
      ensures forall k :: 0 <= k < |r| ==> k + 1 in db.barbers && db.barbers[k + 1] == r[k] && r[k].id == k + 1
    {
      r := Values(db.barbers, db.barberNext);
      CardinalityOfDense(db.barbers, db.barberNext);
    }

    /** `getBarber(id)`: the row with that id, or undefined. */
    method GetBarber(id: int) returns (r: Option<Barber>)
      requires Valid()
      ensures r.Some? <==> 1 <= id < db.barberNext
      ensures r.Some? ==> id in db.barbers && r.value == db.barbers[id] && r.value.id == id
    {
      r := Get(db.barbers, id);
    }

    /** `createBarber(ins)`: `insert ... returning`, the serial id filled in
        and an omitted `available` defaulted to true. */
    method CreateBarber(ins: InsertBarber) returns (b: Barber)
      requires Valid()
      modifies this
      ensures Valid()
      ensures db == AddBarber(old(db), ins)
      ensures b.id == old(db.barberNext) && b.id !in old(db.barbers)
      ensures BarberInsert(b) == ins.(available := Some(DefaultTrue(ins.available)))
      ensures b.id in db.barbers && db.barbers[b.id] == b
    {
      AddBarberFresh(db, ins);
      b := BarberRow(ins, db.barberNext);
      db := AddBarber(db, ins);
    }

    /** `getServices()`: `select` over the services table, in id order. */
    method GetServices() returns (r: seq<Service>)
      requires Valid()
      ensures |r| == |db.services|
      ensures forall k :: 0 <= k < |r| ==> k + 1 in db.services && db.services[k + 1] == r[k] && r[k].id == k + 1
    {
      r := Values(db.services, db.serviceNext);
      CardinalityOfDense(db.services, db.serviceNext);
    }

    /** `getService(id)`: the row with that id, or undefined. */
    method GetService(id: int) returns (r: Option<Service>)
      requires Valid()
      ensures r.Some? <==> 1 <= id < db.serviceNext
      ensures r.Some? ==> id in db.services && r.value == db.services[id] && r.value.id == id
    {
      r := Get(db.services, id);
    }

    /** `createService(ins)`: `insert ... returning`. */
    method CreateService(ins: InsertService) returns (s: Service)
      requires Valid()
      modifies this
      ensures Valid()
      ensures db == AddService(old(db), ins)
      ensures s.id == old(db.serviceNext) && s.id !in old(db.services)
      ensures ServiceInsert(s) == ins
      ensures s.id in db.services && db.services[s.id] == s
    {
      AddServiceFresh(db, ins);
      s := ServiceRow(ins, db.serviceNext);
      db := AddService(db, ins);
    }

    /** `getTimeSlots(barberId, date)`: `select ... where barberId = ? and
        date = ?`. */
    method GetTimeSlots(barberId: int, date: string) returns (r: seq<TimeSlot>)
      requires Valid()
      ensures r == TimeSlotsFor(db, barberId, date)
      ensures forall k :: 0 <= k < |r| ==>
                r[k].barberId == barberId && r[k].date == date && r[k].id in db.timeSlots && db.timeSlots[r[k].id] == r[k]
      ensures forall id :: id in db.timeSlots && db.timeSlots[id].barberId == barberId && db.timeSlots[id].date == date
                ==> db.timeSlots[id] in r
    {
      r := TimeSlotsFor(db, barberId, date);
      TimeSlotsForExact(db, barberId, date);
    }

    /** `getTimeSlot(id)`: the row with that id, or undefined. */
    method GetTimeSlot(id: int) returns (r: Option<TimeSlot>)
      requires Valid()
      ensures r.Some? <==> 1 <= id < db.timeSlotNext
      ensures r.Some? ==> id in db.timeSlots && r.value == db.timeSlots[id] && r.value.id == id
    {
      r := TimeSlotById(db, id);
    }

    /** `createTimeSlot(ins)`: `insert ... returning`, an omitted `available`
        defaulted to true. */
    method CreateTimeSlot(ins: InsertTimeSlot) returns (s: TimeSlot)
      requires Valid()
      modifies this
      ensures Valid()
      ensures db == AddTimeSlot(old(db), ins)
      ensures s.id == old(db.timeSlotNext) && s.id !in old(db.timeSlots)
      ensures TimeSlotInsert(s) == ins.(available := Some(DefaultTrue(ins.available)))
      ensures s.id in db.timeSlots && db.timeSlots[s.id] == s
    {
      AddTimeSlotFresh(db, ins);
      s := TimeSlotRow(ins, db.timeSlotNext);
      db := AddTimeSlot(db, ins);
    }

    /** `updateTimeSlotAvailability(id, available)`: `update ... set available
        where id = ? returning`; no row, undefined. */
    method UpdateTimeSlotAvailability(id: int, available: bool) returns (r: Option<TimeSlot>)
      requires Valid()
      modifies this
      ensures Valid()
      ensures db == SetAvailability(old(db), id, available)
      ensures r.None? <==> id !in old(db.timeSlots)
      ensures r.Some? ==> id in db.timeSlots && r.value == db.timeSlots[id] && r.value.available == available
      ensures r.Some? ==> r.value == old(db.timeSlots[id]).(available := available)
    {
      SetAvailabilityEffect(db, id, available);
      r := UpdatedSlot(db, id, available);
      db := SetAvailability(db, id, available);
    }

    /** `getAppointments()`: `select` over the appointments table, in id order. */
    method GetAppointments() returns (r: seq<Appointment>)
      requires Valid()
      ensures |r| == |db.appointments|
      ensures forall k :: 0 <= k < |r| ==>
                k + 1 in db.appointments && db.appointments[k + 1] == r[k] && r[k].id == k + 1
    {
      r := Values(db.appointments, db.appointmentNext);
      CardinalityOfDense(db.appointments, db.appointmentNext);
    }

    /** `getAppointment(id)`: the row with that id, or undefined. */
    method GetAppointment(id: int) returns (r: Option<Appointment>)
      requires Valid()
      ensures r.Some? <==> 1 <= id < db.appointmentNext
      ensures r.Some? ==> id in db.appointments && r.value == db.appointments[id] && r.value.id == id
    {
      r := Get(db.appointments, id);
    }

    /** `createAppointment(ins)` at clock reading `now`: insert the row with
        `createdAt`, then mark the first of the barber's slots on that date at
        that time, if any, as taken. */
    method CreateAppointment(ins: InsertAppointment, now: Timestamp) returns (a: Appointment)
      requires Valid()
      modifies this
      ensures Valid()
      ensures db == Storage.CreateAppointment(old(db), ins, now)
      ensures a.id == old(db.appointmentNext) && a.createdAt == Some(now) && AppointmentInsert(a) == ins
      ensures a.id in db.appointments && db.appointments[a.id] == a
    {
      ghost var t := db;
      AddAppointmentFresh(db, ins, now);
      a := AppointmentRow(ins, db.appointmentNext, now);
      db := AddAppointment(db, ins, now);
      var matchingTimeSlots := GetTimeSlots(ins.barberId, ins.date);
      var matchingSlot := FirstAtTime(matchingTimeSlots, ins.time);
      if matchingSlot.Some? {
        var _ := UpdateTimeSlotAvailability(matchingSlot.value.id, false);
      }
      BookMarksFirstMatch(AddAppointment(t, ins, now), ins.barberId, ins.date, ins.time);
    }

    /** `initializeSampleData()`: nothing when a barber exists; otherwise the
        roster, the services and, per time and per barber, today's slot then
        tomorrow's. */
    method InitializeSampleData(today: CalendarDate, tomorrow: CalendarDate)
      requires Valid()
      requires ValidCalendarDate(today) && ValidCalendarDate(tomorrow)
      modifies this
      ensures Valid()
      ensures db == SeedSample(old(db), FormatDate(today), FormatDate(tomorrow))
    {
      var existingBarbers := GetBarbers();
      CardinalityOfDense(db.barbers, db.barberNext);
      if |existingBarbers| > 0 {
        return;
      }
      CreateBarbers(SeedBarbers(true));
      CreateServices(SeedServices);
      var todayFormatted := FormatDate(today);
      var tomorrowFormatted := FormatDate(tomorrow);
      CreateSlotsPerTime(SeedTimes, todayFormatted, tomorrowFormatted);
    }

    /** `for (const barber of barberData) await this.createBarber(barber)`. */
    method CreateBarbers(roster: seq<InsertBarber>)
      requires Valid()
      modifies this
      ensures Valid()
      ensures db == AddBarbers(old(db), roster)
    {
      ghost var t := db;
      for i := 0 to |roster|
        invariant Valid()
        invariant db == AddBarbers(t, roster[..i])
      {
        var _ := CreateBarber(roster[i]);
        AddBarbersSnoc(t, roster[..i], roster[i]);
        assert roster[..i + 1] == roster[..i] + [roster[i]];
      }
      assert roster[..|roster|] == roster;
    }

    /** `for (const service of serviceData) await this.createService(service)`. */
    method CreateServices(catalogue: seq<InsertService>)
      requires Valid()
      modifies this
      ensures Valid()
      ensures db == AddServices(old(db), catalogue)
    {
      ghost var t := db;
      for i := 0 to |catalogue|
        invariant Valid()
        invariant db == AddServices(t, catalogue[..i])
      {
        var _ := CreateService(catalogue[i]);
        AddServicesSnoc(t, catalogue[..i], catalogue[i]);
        assert catalogue[..i + 1] == catalogue[..i] + [catalogue[i]];
      }
      assert catalogue[..|catalogue|] == catalogue;
    }

    /** `for (const time of times)`: one block of six slots per time. */
    method CreateSlotsPerTime(times: seq<string>, todayFormatted: string, tomorrowFormatted: string)
      requires Valid()
      modifies this
      ensures Valid()
      ensures db == AddTimeSlots(old(db), DbSlotOrder(times, todayFormatted, tomorrowFormatted))
    {
      ghost var t := db;
      for i := 0 to |times|
        invariant Valid()
        invariant db == AddTimeSlots(t, DbSlotOrder(times[..i], todayFormatted, tomorrowFormatted))
      {
        ghost var done := DbSlotOrder(times[..i], todayFormatted, tomorrowFormatted);
        CreateSlotsAt(times[i], todayFormatted, tomorrowFormatted);
        AddTimeSlotsAppend(t, done, DbBlock(times[i], todayFormatted, tomorrowFormatted));
        assert times[..i + 1][..i] == times[..i];
      }
      assert times[..|times|] == times;
    }

    /** The body run for one time: `for (let barberId = 1; barberId <= 3;
        barberId++)`, today's slot then tomorrow's. */
    method CreateSlotsAt(time: string, todayFormatted: string, tomorrowFormatted: string)
      requires Valid()
      modifies this
      ensures Valid()
      ensures db == AddTimeSlots(old(db), DbBlock(time, todayFormatted, tomorrowFormatted))
    {
      ghost var t := db;
      for barberId := 1 to 4
        invariant Valid()
        invariant db == AddTimeSlots(t, PairsUpTo(time, todayFormatted, tomorrowFormatted, barberId - 1))
      {
        ghost var done := PairsUpTo(time, todayFormatted, tomorrowFormatted, barberId - 1);
        var todaySlot := InsertTimeSlot(barberId, time, todayFormatted, Some(true));
        var _ := CreateTimeSlot(todaySlot);
        AddTimeSlotsSnoc(t, done, todaySlot);
        var tomorrowSlot := InsertTimeSlot(barberId, time, tomorrowFormatted, Some(true));
        var _ := CreateTimeSlot(tomorrowSlot);
        AddTimeSlotsSnoc(t, done + [todaySlot], tomorrowSlot);
        PairsUpToStep(time, todayFormatted, tomorrowFormatted, barberId);
      }
      DbBlockByBarber(time, todayFormatted, tomorrowFormatted);
    }
  }
}
