/** The four record shapes of the booking system and their insertable
    variants. A row is what a table holds; an insert is what a caller hands
    to `create*`: every column except the generated `id` (and, for
    appointments, the server-set `createdAt`), with columns that have a
    default left optional. */
module Schema {

  datatype Option<+T> = None | Some(value: T)

  /** Milliseconds since the epoch, as a JavaScript `Date` holds them. */
  type Timestamp = int

  datatype Barber = Barber(
    id: int,
    name: string,
    title: string,
    experience: string,
    rating: string,        // a decimal kept as text, e.g. "4.8"
    reviewCount: int,
    imageUrl: string,
    available: bool)

  datatype InsertBarber = InsertBarber(
    name: string,
    title: string,
    experience: string,
    rating: string,
    reviewCount: int,
    imageUrl: string,
    available: Option<bool>)   // None: omitted, the column default applies

  datatype Service = Service(
    id: int,
    name: string,
    description: string,
    price: int,               // in cents
    duration: int,            // in minutes
    icon: string)

  datatype InsertService = InsertService(
    name: string,
    description: string,
    price: int,
    duration: int,
    icon: string)

  /** A bookable (barber, date, time) unit; nothing makes the triple unique. */
  datatype TimeSlot = TimeSlot(
    id: int,
    barberId: int,
    time: string,             // "HH:MM"
    date: string,             // "DD/MM/YYYY"
    available: bool)

  datatype InsertTimeSlot = InsertTimeSlot(
    barberId: int,
    time: string,
    date: string,
    available: Option<bool>)

  /** Linked to its slot only by equal (barberId, date, time). `notes` and
      `createdAt` are the nullable columns. */
  datatype Appointment = Appointment(
    id: int,
    barberId: int,
    serviceId: int,
    date: string,
    time: string,
    customerName: string,
    customerPhone: string,
    customerEmail: string,
    notes: Option<string>,
    createdAt: Option<Timestamp>)

  /** No `id` and no `createdAt`: a caller cannot supply either. */
  datatype InsertAppointment = InsertAppointment(
    barberId: int,
    serviceId: int,
    date: string,
    time: string,
    customerName: string,
    customerPhone: string,
    customerEmail: string,
    notes: Option<string>)

  /** The value a boolean column declared `.default(true)` takes. */
  function DefaultTrue(given: Option<bool>): (b: bool)
    ensures b <==> given != Some(false)
    ensures given.Some? ==> b == given.value
  {
    match given
    case Some(v) => v
    case None => true
  }

  /** The insertable part of each row: the row without its generated columns,
      with the defaulted columns given explicitly. */
  function BarberInsert(b: Barber): InsertBarber {
    InsertBarber(b.name, b.title, b.experience, b.rating, b.reviewCount, b.imageUrl, Some(b.available))
  }

  function ServiceInsert(s: Service): InsertService {
    InsertService(s.name, s.description, s.price, s.duration, s.icon)
  }

  function TimeSlotInsert(s: TimeSlot): InsertTimeSlot {
    InsertTimeSlot(s.barberId, s.time, s.date, Some(s.available))
  }

  function AppointmentInsert(a: Appointment): InsertAppointment {
    InsertAppointment(a.barberId, a.serviceId, a.date, a.time,
                      a.customerName, a.customerPhone, a.customerEmail, a.notes)
  }

  /** The row stored for an insert under a new id: the input plus the id, the
      default filled in. */
  function BarberRow(ins: InsertBarber, id: int): (r: Barber)
    ensures r.id == id
    ensures BarberInsert(r) == ins.(available := Some(DefaultTrue(ins.available)))
  {
    Barber(id, ins.name, ins.title, ins.experience, ins.rating, ins.reviewCount, ins.imageUrl,
           DefaultTrue(ins.available))
  }

  function ServiceRow(ins: InsertService, id: int): (r: Service)
    ensures r.id == id && ServiceInsert(r) == ins
  {
    Service(id, ins.name, ins.description, ins.price, ins.duration, ins.icon)
  }

  function TimeSlotRow(ins: InsertTimeSlot, id: int): (r: TimeSlot)
    ensures r.id == id
    ensures TimeSlotInsert(r) == ins.(available := Some(DefaultTrue(ins.available)))
  {
    TimeSlot(id, ins.barberId, ins.time, ins.date, DefaultTrue(ins.available))
  }

  /** An appointment row carries the caller's fields unchanged, the new id and
      the server's clock reading. */
  function AppointmentRow(ins: InsertAppointment, id: int, now: Timestamp): (r: Appointment)
    ensures r.id == id && r.createdAt == Some(now)
    ensures AppointmentInsert(r) == ins
  {
    Appointment(id, ins.barberId, ins.serviceId, ins.date, ins.time,
                ins.customerName, ins.customerPhone, ins.customerEmail, ins.notes, Some(now))
  }

  /** Every row is the row of its own insertable part under its own id. */
  lemma RowsAreInsertsPlusId(b: Barber, s: Service, t: TimeSlot, a: Appointment)
    requires a.createdAt.Some?
    ensures BarberRow(BarberInsert(b), b.id) == b
    ensures ServiceRow(ServiceInsert(s), s.id) == s
    ensures TimeSlotRow(TimeSlotInsert(t), t.id) == t
    ensures AppointmentRow(AppointmentInsert(a), a.id, a.createdAt.value) == a
  {
  }

  /** As written, the in-memory store keeps `{ ...barber, id }` and
      `{ ...timeSlot, id }`: the caller's object with the id added. The object
      has only the keys the insert had, so when `available` was omitted it
      stays omitted instead of getting the column default. */
  datatype SpreadBarber = SpreadBarber(id: int, given: InsertBarber)
  datatype SpreadTimeSlot = SpreadTimeSlot(id: int, given: InsertTimeSlot)

  /** A corrected row seen as the spread object that carries the same keys. */
  function BarberAsSpread(b: Barber): SpreadBarber {
    SpreadBarber(b.id, BarberInsert(b))
  }

  function TimeSlotAsSpread(s: TimeSlot): SpreadTimeSlot {
    SpreadTimeSlot(s.id, TimeSlotInsert(s))
  }

  /** `createBarber` as written: the stored object has `available` exactly
      when the insert had it, with the given value, and every other field is
      the insert's. */
  function SpreadBarberOf(ins: InsertBarber, id: int): (r: SpreadBarber)
    ensures r.id == id
    ensures r.given.available.None? <==> ins.available.None?
    ensures ins.available.Some? ==> r.given.available == ins.available
    ensures r.given.(available := None) == ins.(available := None)
  {
    SpreadBarber(id, ins)
  }

  /** `createTimeSlot` as written, likewise. */
  function SpreadTimeSlotOf(ins: InsertTimeSlot, id: int): (r: SpreadTimeSlot)
    ensures r.id == id
    ensures r.given.available.None? <==> ins.available.None?
    ensures ins.available.Some? ==> r.given.available == ins.available
    ensures r.given.(available := None) == ins.(available := None)
  {
    SpreadTimeSlot(id, ins)
  }

  /** The spread object is the corrected row exactly when the caller gave
      `available`; for every insert that omits it, the two differ. */
  lemma SpreadAgreesIffFlagGiven(b: InsertBarber, s: InsertTimeSlot, id: int)
    ensures SpreadBarberOf(b, id) == BarberAsSpread(BarberRow(b, id)) <==> b.available.Some?
    ensures SpreadTimeSlotOf(s, id) == TimeSlotAsSpread(TimeSlotRow(s, id)) <==> s.available.Some?
  {
    if b.available.None? {
      assert BarberAsSpread(BarberRow(b, id)).given.available.Some?;
    }
    if s.available.None? {
      assert TimeSlotAsSpread(TimeSlotRow(s, id)).given.available.Some?;
    }
  }

  /** A barber and a slot inserted without `available`: the in-memory objects
      have no flag, while the table (and the corrected row) says available. */
  lemma SpreadLosesDefault()
    ensures var ins := InsertBarber("Barber", "Title", "1 year", "5.0", 0, "", None);
      SpreadBarberOf(ins, 1).given.available == None && BarberRow(ins, 1).available
    ensures var ins := InsertTimeSlot(1, "09:00", "01/01/2030", None);
      SpreadTimeSlotOf(ins, 1).given.available == None && TimeSlotRow(ins, 1).available
  {
  }
}
