/** The sample catalogue both stores seed: three barbers, four services and,
    for each of sixteen times of day, a slot per barber for "today" and
    "tomorrow". The two stores create the slots in different orders and
    disagree on the third barber's availability. */
module SampleData {
  import opened Schema
  import opened Storage
  import opened Utils

  /** The seeded times of day: the half-hour grid without 12:00 and 12:30. */
  const SeedTimes: seq<string> :=
    ["09:00", "09:30", "10:00", "10:30", "11:00", "11:30",
     "13:00", "13:30", "14:00", "14:30", "15:00", "15:30",
     "16:00", "16:30", "17:00", "17:30"]

  /** The roster's portrait URLs. */
  const MiguelImage: string := "https://images.unsplash.com/photo-1581481615985-ba4775734a9b?ixlib=rb-4.0.3&ixid=MnwxMjA3fDB8MHxwaG90by1wYWdlfHx8fGVufDB8fHx8&auto=format&fit=crop&w=400&h=300&q=80"
  const AndreImage: string := "https://pixabay.com/get/g3b9b13414780061f51af95a80629e0a86820b4d6b56d29eb6be7d134e1e8e145dea662ea122c2adee7be0f44853c74035e85f9e054a8c9ebf00d09391ead557e_1280.jpg"
  const LucasImage: string := "https://images.unsplash.com/photo-1596728325488-58c87691e9af?ixlib=rb-4.0.3&ixid=MnwxMjA3fDB8MHxwaG90by1wYWdlfHx8fGVufDB8fHx8&auto=format&fit=crop&w=400&h=300&q=80"

  /** The barber roster, the third barber's flag being the one difference
      between the two stores' copies. */
  function SeedBarbers(thirdAvailable: bool): (r: seq<InsertBarber>)
    ensures |r| == 3
    ensures r[0].available == Some(true) && r[1].available == Some(true)
    ensures r[2].available == Some(thirdAvailable)
  {
    [ InsertBarber("Miguel Silva", "Master Barber", "8 anos de experiência", "4.8", 124, MiguelImage, Some(true)),
      InsertBarber("André Oliveira", "Style Specialist", "5 anos de experiência", "4.2", 98, AndreImage, Some(true)),
      InsertBarber("Lucas Mendes", "Beard Specialist", "3 anos de experiência", "5.0", 57, LucasImage, Some(thirdAvailable)) ]
  }

  /** Prices in cents, durations in minutes. */
  const SeedServices: seq<InsertService> :=
    [ InsertService("Corte Clássico", "Inclui lavagem e finalização", 4500, 30, "ri-scissors-line"),
      InsertService("Barba Completa", "Com toalha quente e produtos premium", 3500, 20, "ri-scissors-2-line"),
      InsertService("Combo Corte e Barba", "Nosso serviço mais popular", 7000, 50, "ri-brush-line"),
      InsertService("Degradê e Design", "Fade com detalhes personalizados", 6000, 40, "ri-magic-line") ]

  function SeedSlot(barberId: int, time: string, date: string): InsertTimeSlot {
    InsertTimeSlot(barberId, time, date, Some(true))
  }

  /** The in-memory store's slots for one time: barbers 1, 2, 3 today, then
      barbers 1, 2, 3 tomorrow. */
  function MemBlock(time: string, today: string, tomorrow: string): seq<InsertTimeSlot> {
    [ SeedSlot(1, time, today), SeedSlot(2, time, today), SeedSlot(3, time, today),
      SeedSlot(1, time, tomorrow), SeedSlot(2, time, tomorrow), SeedSlot(3, time, tomorrow) ]
  }

  /** The database store's slots for one time: per barber 1, 2, 3, today's
      slot then tomorrow's. */
  function DbBlock(time: string, today: string, tomorrow: string): seq<InsertTimeSlot> {
    [ SeedSlot(1, time, today), SeedSlot(1, time, tomorrow),
      SeedSlot(2, time, today), SeedSlot(2, time, tomorrow),
      SeedSlot(3, time, today), SeedSlot(3, time, tomorrow) ]
  }

  /** Barbers 1..n's slots at one time and date, in barber order. */
  function SlotsUpTo(time: string, date: string, n: nat): (r: seq<InsertTimeSlot>)
    ensures |r| == n
  {
    if n == 0 then [] else SlotsUpTo(time, date, n - 1) + [SeedSlot(n, time, date)]
  }

  /** Barbers 1..n's pairs of slots at one time, today's then tomorrow's. */
  function PairsUpTo(time: string, today: string, tomorrow: string, n: nat): (r: seq<InsertTimeSlot>)
    ensures |r| == 2 * n
  {
    if n == 0 then []
    else PairsUpTo(time, today, tomorrow, n - 1) + [SeedSlot(n, time, today), SeedSlot(n, time, tomorrow)]
  }

  /** One more barber's pair, today's slot then tomorrow's, one at a time. */
  lemma PairsUpToStep(time: string, today: string, tomorrow: string, n: nat)
    requires n >= 1
    ensures PairsUpTo(time, today, tomorrow, n) ==
      PairsUpTo(time, today, tomorrow, n - 1) + [SeedSlot(n, time, today)] + [SeedSlot(n, time, tomorrow)]
  {
  }

  /** Barbers 1, 2 and 3 at one time and date. */
  lemma SlotsUpToThree(time: string, date: string)
    ensures SlotsUpTo(time, date, 3) == [SeedSlot(1, time, date), SeedSlot(2, time, date), SeedSlot(3, time, date)]
  {
    assert SlotsUpTo(time, date, 1) == [SeedSlot(1, time, date)];
    assert SlotsUpTo(time, date, 2) == [SeedSlot(1, time, date), SeedSlot(2, time, date)];
  }

  /** The in-memory block is the three barbers today, then the three
      tomorrow. */
  lemma MemBlockByDate(time: string, today: string, tomorrow: string)
    ensures MemBlock(time, today, tomorrow) == SlotsUpTo(time, today, 3) + SlotsUpTo(time, tomorrow, 3)
  {
    SlotsUpToThree(time, today);
    SlotsUpToThree(time, tomorrow);
  }

  /** The database block is the three barbers' pairs. */
  lemma DbBlockByBarber(time: string, today: string, tomorrow: string)
    ensures DbBlock(time, today, tomorrow) == PairsUpTo(time, today, tomorrow, 3)
  {
    assert PairsUpTo(time, today, tomorrow, 1) == [SeedSlot(1, time, today), SeedSlot(1, time, tomorrow)];
    assert PairsUpTo(time, today, tomorrow, 2) ==
      [SeedSlot(1, time, today), SeedSlot(1, time, tomorrow), SeedSlot(2, time, today), SeedSlot(2, time, tomorrow)];
  }

  /** Every slot either store seeds is created available, six per time. */
  function MemSlotOrder(times: seq<string>, today: string, tomorrow: string): (r: seq<InsertTimeSlot>)
    ensures |r| == 6 * |times|
    ensures forall k :: 0 <= k < |r| ==> r[k].available == Some(true)
    decreases |times|
  {
    if times == [] then []
    else MemSlotOrder(times[..|times| - 1], today, tomorrow) + MemBlock(times[|times| - 1], today, tomorrow)
  }

  function DbSlotOrder(times: seq<string>, today: string, tomorrow: string): (r: seq<InsertTimeSlot>)
    ensures |r| == 6 * |times|
    ensures forall k :: 0 <= k < |r| ==> r[k].available == Some(true)
    decreases |times|
  {
    if times == [] then []
    else DbSlotOrder(times[..|times| - 1], today, tomorrow) + DbBlock(times[|times| - 1], today, tomorrow)
  }

  /** The barbers, then the services, then the slots, each batch in list
      order. */
  function Seed(t: Tables, barbers: seq<InsertBarber>, services: seq<InsertService>,
                slots: seq<InsertTimeSlot>): (u: Tables)
    ensures u.barberNext == t.barberNext + |barbers|
    ensures u.serviceNext == t.serviceNext + |services|
    ensures u.timeSlotNext == t.timeSlotNext + |slots|
    ensures u.appointments == t.appointments && u.appointmentNext == t.appointmentNext
  {
    AddTimeSlots(AddServices(AddBarbers(t, barbers), services), slots)
  }

  /** Seeding keeps the tables valid. */
  lemma SeedValid(t: Tables, barbers: seq<InsertBarber>, services: seq<InsertService>,
                  slots: seq<InsertTimeSlot>)
    requires t.Valid()
    ensures Seed(t, barbers, services, slots).Valid()
  {
    AddBarbersContents(t, barbers);
    AddServicesContents(AddBarbers(t, barbers), services);
    AddTimeSlotsContents(AddServices(AddBarbers(t, barbers), services), slots);
  }

  /** The in-memory store right after construction. */
  function MemSample(today: string, tomorrow: string): (t: Tables)
    ensures t.Valid()
  {
    SeedValid(Empty(), SeedBarbers(false), SeedServices, MemSlotOrder(SeedTimes, today, tomorrow));
    Seed(Empty(), SeedBarbers(false), SeedServices, MemSlotOrder(SeedTimes, today, tomorrow))
  }

  /** `initializeSampleData` on the database: nothing when a barber exists,
      otherwise the roster, the services and the slots in its loop order. */
  function SeedSample(t: Tables, today: string, tomorrow: string): (u: Tables)
    requires t.Valid()
    ensures u.Valid()
  {
    if |Values(t.barbers, t.barberNext)| > 0 then t
    else
      SeedValid(t, SeedBarbers(true), SeedServices, DbSlotOrder(SeedTimes, today, tomorrow));
      Seed(t, SeedBarbers(true), SeedServices, DbSlotOrder(SeedTimes, today, tomorrow))
  }

  // ---- the seeded times ---------------------------------------------------

  lemma SeedTimesLiteral()
    ensures SeedTimes == GridText[..6] + GridText[8..]
  {
    assert SeedTimes[..6] == GridText[..6];
    assert SeedTimes[6..] == GridText[8..];
    assert SeedTimes == SeedTimes[..6] + SeedTimes[6..];
  }

  /** Every seeded time is on the client's half-hour grid, in grid order; the
      grid has two more entries, 12:00 and 12:30. */
  lemma SeedTimesOnGrid()
    ensures SeedTimes == TimeGrid()[..6] + TimeGrid()[8..]
    ensures TimeGrid()[6] == "12:00" && TimeGrid()[7] == "12:30"
  {
    TimeGridLiteral();
    SeedTimesLiteral();
  }

  /** No slot is seeded at 12:00 or 12:30. */
  lemma LunchNotSeeded()
    ensures "12:00" !in SeedTimes && "12:30" !in SeedTimes
  {
    SeedTimesOnGrid();
    forall k | 0 <= k < 16
      ensures SeedTimes[k] != TimeGrid()[6] && SeedTimes[k] != TimeGrid()[7]
    {
      if k < 6 {
        TimeGridIncreasing(k, 6);
        TimeGridIncreasing(k, 7);
      } else {
        TimeGridIncreasing(6, k + 2);
        TimeGridIncreasing(7, k + 2);
      }
    }
  }

  /** The sixteen seeded times are pairwise distinct. */
  lemma SeedTimesDistinct(i: int, j: int)
    requires 0 <= i < j < |SeedTimes|
    ensures SeedTimes[i] != SeedTimes[j]
  {
    SeedTimesOnGrid();
    var gi := if i < 6 then i else i + 2;
    var gj := if j < 6 then j else j + 2;
    assert SeedTimes[i] == TimeGrid()[gi] && SeedTimes[j] == TimeGrid()[gj];
    TimeGridIncreasing(gi, gj);
  }

  // ---- slot positions -------------------------------------------------------

  /** In the in-memory order, time i's block starts at 6*i: barber b's slot
      today is at 6*i + b - 1, tomorrow's at 6*i + 3 + b - 1. */
  lemma {:induction false} MemSlotAt(times: seq<string>, today: string, tomorrow: string, i: int, j: int)
    requires 0 <= i < |times| && 0 <= j < 6
    ensures MemSlotOrder(times, today, tomorrow)[6 * i + j] == MemBlock(times[i], today, tomorrow)[j]
    decreases |times|
  {
    var init := times[..|times| - 1];
    if i < |times| - 1 {
      MemSlotAt(init, today, tomorrow, i, j);
      assert init[i] == times[i];
    }
  }

  /** In the database order, time i's block starts at 6*i: barber b's slot
      today is at 6*i + 2*(b-1), tomorrow's right after it. */
  lemma {:induction false} DbSlotAt(times: seq<string>, today: string, tomorrow: string, i: int, j: int)
    requires 0 <= i < |times| && 0 <= j < 6
    ensures DbSlotOrder(times, today, tomorrow)[6 * i + j] == DbBlock(times[i], today, tomorrow)[j]
    decreases |times|
  {
    var init := times[..|times| - 1];
    if i < |times| - 1 {
      DbSlotAt(init, today, tomorrow, i, j);
      assert init[i] == times[i];
    }
  }

  /** A time's two blocks hold the same six slots. */
  lemma BlocksSameSlots(time: string, today: string, tomorrow: string)
    ensures forall x :: x in MemBlock(time, today, tomorrow) <==> x in DbBlock(time, today, tomorrow)
  {
  }

  /** The two stores seed the same set of slots, only in different orders. */
  lemma {:induction false} SeedOrdersSameSlots(times: seq<string>, today: string, tomorrow: string)
    ensures forall x :: x in MemSlotOrder(times, today, tomorrow) <==> x in DbSlotOrder(times, today, tomorrow)
    decreases |times|
  {
    if times != [] {
      var init, last := times[..|times| - 1], times[|times| - 1];
      SeedOrdersSameSlots(init, today, tomorrow);
      BlocksSameSlots(last, today, tomorrow);
    }
  }

  /** With distinct times and two distinct dates, no (barber, date, time) is
      seeded twice. */
  lemma DbSlotsDistinct(times: seq<string>, today: string, tomorrow: string, p: int, q: int)
    requires forall i, j :: 0 <= i < j < |times| ==> times[i] != times[j]
    requires today != tomorrow
    requires 0 <= p < q < 6 * |times|
    ensures var s := DbSlotOrder(times, today, tomorrow);
      (s[p].barberId, s[p].date, s[p].time) != (s[q].barberId, s[q].date, s[q].time)
  {
    var i, j, i', j' := p / 6, p % 6, q / 6, q % 6;
    assert p == 6 * i + j && q == 6 * i' + j';
    DbSlotAt(times, today, tomorrow, i, j);
    DbSlotAt(times, today, tomorrow, i', j');
    if i == i' {
      assert j < j';
    } else {
      assert i < i' && times[i] != times[i'];
    }
  }

  lemma MemSlotsDistinct(times: seq<string>, today: string, tomorrow: string, p: int, q: int)
    requires forall i, j :: 0 <= i < j < |times| ==> times[i] != times[j]
    requires today != tomorrow
    requires 0 <= p < q < 6 * |times|
    ensures var s := MemSlotOrder(times, today, tomorrow);
      (s[p].barberId, s[p].date, s[p].time) != (s[q].barberId, s[q].date, s[q].time)
  {
    var i, j, i', j' := p / 6, p % 6, q / 6, q % 6;
    assert p == 6 * i + j && q == 6 * i' + j';
    MemSlotAt(times, today, tomorrow, i, j);
    MemSlotAt(times, today, tomorrow, i', j');
    if i == i' {
      assert j < j';
    } else {
      assert i < i' && times[i] != times[i'];
    }
  }

  // ---- seeding ---------------------------------------------------------------

  /** Seeding appends the barbers after the existing ones, under consecutive
      ids. */
  lemma SeedAddsBarbers(t: Tables, barbers: seq<InsertBarber>, services: seq<InsertService>,
                     slots: seq<InsertTimeSlot>)
    requires Dense(t.barbers, t.barberNext)
    ensures var u := Seed(t, barbers, services, slots);
      && u.barberNext == t.barberNext + |barbers|
      && Dense(u.barbers, u.barberNext)
      && (forall id :: id in t.barbers ==> u.barbers[id] == t.barbers[id])
      && (forall k :: 0 <= k < |barbers| ==> u.barbers[t.barberNext + k] == BarberRow(barbers[k], t.barberNext + k))
  {
    InsertAllContents(t.barbers, t.barberNext, barbers, BarberRow);
  }

  /** Seeding appends the services after the existing ones, under
      consecutive ids. */
  lemma SeedAddsServices(t: Tables, barbers: seq<InsertBarber>, services: seq<InsertService>,
                     slots: seq<InsertTimeSlot>)
    requires Dense(t.services, t.serviceNext)
    ensures var u := Seed(t, barbers, services, slots);
      && u.serviceNext == t.serviceNext + |services|
      && Dense(u.services, u.serviceNext)
      && (forall id :: id in t.services ==> u.services[id] == t.services[id])
      && (forall k :: 0 <= k < |services| ==> u.services[t.serviceNext + k] == ServiceRow(services[k], t.serviceNext + k))
  {
    InsertAllContents(t.services, t.serviceNext, services, ServiceRow);
  }

  /** Seeding appends the slots after the existing ones, under consecutive
      ids, and leaves the appointments alone. */
  lemma SeedAddsSlots(t: Tables, barbers: seq<InsertBarber>, services: seq<InsertService>,
                     slots: seq<InsertTimeSlot>)
    requires Dense(t.timeSlots, t.timeSlotNext)
    ensures var u := Seed(t, barbers, services, slots);
      && u.timeSlotNext == t.timeSlotNext + |slots|
      && Dense(u.timeSlots, u.timeSlotNext)
      && (forall id :: id in t.timeSlots ==> u.timeSlots[id] == t.timeSlots[id])
      && (forall k :: 0 <= k < |slots| ==> u.timeSlots[t.timeSlotNext + k] == TimeSlotRow(slots[k], t.timeSlotNext + k))
      && u.appointments == t.appointments && u.appointmentNext == t.appointmentNext
  {
    InsertAllContents(t.timeSlots, t.timeSlotNext, slots, TimeSlotRow);
  }

  /** Every slot a seed adds is available when the seeded list says so. */
  lemma SeededSlotsAvailable(t: Tables, barbers: seq<InsertBarber>, services: seq<InsertService>,
                     slots: seq<InsertTimeSlot>)
    requires Dense(t.timeSlots, t.timeSlotNext)
    requires forall k :: 0 <= k < |slots| ==> slots[k].available == Some(true)
    ensures var u := Seed(t, barbers, services, slots);
      forall id :: id in u.timeSlots && t.timeSlotNext <= id ==> u.timeSlots[id].available
  {
    SeedAddsSlots(t, barbers, services, slots);
    var u := Seed(t, barbers, services, slots);
    forall id | id in u.timeSlots && t.timeSlotNext <= id
      ensures u.timeSlots[id].available
    {
      var k := id - t.timeSlotNext;
      assert u.timeSlots[t.timeSlotNext + k] == TimeSlotRow(slots[k], t.timeSlotNext + k);
    }
  }

  // ---- the in-memory seed ---------------------------------------------------

  /** After construction the in-memory store holds barbers 1..3 (the third
      unavailable), services 1..4 and slots 1..96, all available, and no
      appointment. */
  lemma MemSampleShape(today: string, tomorrow: string)
    ensures var t := MemSample(today, tomorrow);
      && t.barberNext == 4 && t.serviceNext == 5 && t.timeSlotNext == 97
      && t.appointments == map[] && t.appointmentNext == 1
      && t.barbers[1].available && t.barbers[2].available && !t.barbers[3].available
      && (forall id :: id in t.timeSlots ==> t.timeSlots[id].available)
  {
    var order := MemSlotOrder(SeedTimes, today, tomorrow);
    SeedAddsBarbers(Empty(), SeedBarbers(false), SeedServices, order);
    SeedAddsServices(Empty(), SeedBarbers(false), SeedServices, order);
    SeedAddsSlots(Empty(), SeedBarbers(false), SeedServices, order);
    SeededSlotsAvailable(Empty(), SeedBarbers(false), SeedServices, order);
    var t := MemSample(today, tomorrow);
    assert t.barbers[1 + 2] == BarberRow(SeedBarbers(false)[2], 1 + 2);
  }

  /** In the in-memory store, slot 6*i + b is barber b's slot at the i-th
      seeded time today and slot 6*i + 3 + b the same tomorrow. */
  lemma MemSampleSlot(today: string, tomorrow: string, i: int, b: int)
    requires 0 <= i < |SeedTimes| && 1 <= b <= 3
    ensures var t := MemSample(today, tomorrow);
      && 6 * i + b in t.timeSlots && 6 * i + 3 + b in t.timeSlots
      && t.timeSlots[6 * i + b] == TimeSlot(6 * i + b, b, SeedTimes[i], today, true)
      && t.timeSlots[6 * i + 3 + b] == TimeSlot(6 * i + 3 + b, b, SeedTimes[i], tomorrow, true)
  {
    var order := MemSlotOrder(SeedTimes, today, tomorrow);
    SeedAddsSlots(Empty(), SeedBarbers(false), SeedServices, order);
    MemSlotAt(SeedTimes, today, tomorrow, i, b - 1);
    MemSlotAt(SeedTimes, today, tomorrow, i, b + 2);
    var t := MemSample(today, tomorrow);
    assert t.timeSlots[1 + (6 * i + b - 1)] == TimeSlotRow(order[6 * i + b - 1], 6 * i + b);
    assert t.timeSlots[1 + (6 * i + b + 2)] == TimeSlotRow(order[6 * i + b + 2], 6 * i + 3 + b);
  }

  // ---- the database seed ---------------------------------------------------

  /** The guard looks at barbers only: the seed skips exactly when some barber
      exists, whatever the other tables hold. */
  lemma SeedSampleGuard(t: Tables, today: string, tomorrow: string)
    requires t.Valid()
    ensures SeedSample(t, today, tomorrow) == t <==> t.barbers != map[]
  {
    if t.barberNext > 1 {
      assert 1 in t.barbers;
    } else {
      assert forall id :: id !in t.barbers;
      assert t.barbers == map[];
      SeedAddsBarbers(t, SeedBarbers(true), SeedServices, DbSlotOrder(SeedTimes, today, tomorrow));
      assert SeedSample(t, today, tomorrow).barberNext == t.barberNext + 3;
    }
  }

  /** On a store without barbers the seed adds barbers 1..3, all available,
      four services after the existing ones and 96 available slots after the
      existing ones in the database's loop order, keeping every existing row
      and the appointments. */
  lemma SeedSampleFills(t: Tables, today: string, tomorrow: string)
    requires t.Valid() && t.barbers == map[]
    ensures var u := SeedSample(t, today, tomorrow);
      && u.barberNext == 4
      && u.barbers[1].available && u.barbers[2].available && u.barbers[3].available
      && u.serviceNext == t.serviceNext + 4
      && (forall id :: id in t.services ==> u.services[id] == t.services[id])
      && u.timeSlotNext == t.timeSlotNext + 96
      && (forall id :: id in t.timeSlots ==> u.timeSlots[id] == t.timeSlots[id])
      && (forall k :: 0 <= k < 96 ==>
            u.timeSlots[t.timeSlotNext + k] == TimeSlotRow(DbSlotOrder(SeedTimes, today, tomorrow)[k], t.timeSlotNext + k))
      && (forall id :: id in u.timeSlots && t.timeSlotNext <= id ==> u.timeSlots[id].available)
      && u.appointments == t.appointments && u.appointmentNext == t.appointmentNext
  {
    assert 1 !in t.barbers;
    assert t.barberNext == 1;
    var order := DbSlotOrder(SeedTimes, today, tomorrow);
    SeedAddsBarbers(t, SeedBarbers(true), SeedServices, order);
    SeedAddsServices(t, SeedBarbers(true), SeedServices, order);
    SeedAddsSlots(t, SeedBarbers(true), SeedServices, order);
    SeededSlotsAvailable(t, SeedBarbers(true), SeedServices, order);
    var u := SeedSample(t, today, tomorrow);
    assert u.barbers[1 + 2] == BarberRow(SeedBarbers(true)[2], 1 + 2);
  }

  /** Seeding twice leaves the database exactly as seeding once, whatever
      day the second seeding runs on. */
  lemma SeedSampleIdempotent(t: Tables, today: string, tomorrow: string, laterToday: string, laterTomorrow: string)
    requires t.Valid()
    ensures SeedSample(SeedSample(t, today, tomorrow), laterToday, laterTomorrow) == SeedSample(t, today, tomorrow)
  {
    SeedSampleGuard(t, today, tomorrow);
    if t.barbers == map[] {
      SeedSampleFills(t, today, tomorrow);
      var u := SeedSample(t, today, tomorrow);
      assert 1 in u.barbers;
      SeedSampleGuard(u, laterToday, laterTomorrow);
    } else {
      SeedSampleGuard(t, laterToday, laterTomorrow);
    }
  }

  // ---- seed, then book --------------------------------------------------------

  /** On a store whose slots are all available and which holds no
      appointment yet, booking the (barber, date, time) of slot 1 stores the
      appointment as number 1 and takes slot 1, every other slot staying
      available. */
  lemma BookSlotOne(t: Tables, ins: InsertAppointment, now: Timestamp)
    requires t.Valid() && t.appointments == map[] && t.appointmentNext == 1
    requires 1 in t.timeSlots && SlotMatches(t.timeSlots[1], ins.barberId, ins.date, ins.time)
    requires forall id :: id in t.timeSlots ==> t.timeSlots[id].available
    ensures var u := CreateAppointment(t, ins, now);
      && u.appointments == map[1 := AppointmentRow(ins, 1, now)]
      && u.timeSlots == t.timeSlots[1 := t.timeSlots[1].(available := false)]
      && (forall id :: id in u.timeSlots && id != 1 ==> u.timeSlots[id].available)
  {
    assert IsFirstMatch(t, 1, ins.barberId, ins.date, ins.time);
    CreateAppointmentEffect(t, ins, now);
    BookMarksFirstMatch(t, ins.barberId, ins.date, ins.time);
  }

  /** Booking barber 1 at 09:00 today right after the in-memory seed stores the
      appointment as number 1 and takes slot 1 (barber 1, today, 09:00), every
      other slot staying available. */
  lemma MemSeedThenBook(today: string, tomorrow: string, ins: InsertAppointment, now: Timestamp)
    requires ins.barberId == 1 && ins.date == today && ins.time == "09:00"
    ensures var u := CreateAppointment(MemSample(today, tomorrow), ins, now);
      && u.appointments == map[1 := AppointmentRow(ins, 1, now)]
      && 1 in u.timeSlots && u.timeSlots[1] == TimeSlot(1, 1, "09:00", today, false)
      && (forall id :: id in u.timeSlots && id != 1 ==> u.timeSlots[id].available)
  {
    MemSampleShape(today, tomorrow);
    MemSampleSlot(today, tomorrow, 0, 1);
    BookSlotOne(MemSample(today, tomorrow), ins, now);
  }
}
