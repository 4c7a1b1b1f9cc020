# Barbershop booking store, modelled in Dafny

This project models the server-side core of a barbershop booking
application. The core is a store of barbers, services, bookable time slots and
appointments. It has two implementations of the same interface:

- an in-memory store, `MemStorage`: four `Map`s keyed by id plus four id counters, updated in place;
- a database-backed store, `DatabaseStorage`: the same four tables kept in Postgres.

Both stores hand out ids from a counter and return `undefined` for unknown ids.
Both seed a sample catalogue of the same size: 3 barbers, 4 services, and 96 slots
(16 times × 3 barbers × today/tomorrow). The two catalogues differ in two
ways. The third barber is unavailable in memory but available in the database,
and the two stores create the slots in different orders. The slots they create
are the same set.

Both stores also run the same booking cascade: `createAppointment` always
stores the appointment. It then marks the first slot of that barber, date and
time as unavailable, if such a slot exists.

The model also covers the two client helpers the catalogue relies on: the
"DD/MM/YYYY" date formatter and the half-hour "HH:MM" grid generator.

Modules:

- `Schema` (schema.dfy): the four records, their insert variants, the column default for `available`, and how a row is built from an insert.
- `JsText` (js_text.dfy): the two JavaScript built-ins the formatters use, `Number.prototype.toString` on integers and `String.prototype.padStart`.
- `Utils` (utils.dfy): `formatDate` over day / 0-based month / year, and `generateTimeSlots` as a loop proved equal to the grid `TimeGrid()`.
- `Storage` (storage.dfy): the store's state as a value, `Tables`, and every interface operation as a function of it. This includes the cascade `Book` / `CreateAppointment`. The lemmas here state what the interface promises.
- `SampleData` (sample_data.dfy): the seed catalogue, and the slot orders of the two stores. Also the state after the in-memory constructor (`MemSample`) and after `initializeSampleData` (`SeedSample`).
- `MemStore` (mem_storage.dfy): class `MemStorage` with the source's eight fields. Each method is proved to take the fields from `State()` to the corresponding `Storage` function of it.
- `DbStore` (database_storage.dfy): class `DatabaseStorage` over a field `db: Tables`, which stands for the database contents. Each method is proved against the same functions, and `InitializeSampleData` against `SeedSample`.

Iterating a JavaScript `Map` follows insertion order. Ids are handed out in
increasing order and never deleted, so insertion order is ascending id order.
`Values(m, next)` lists a table that way.

Every store method takes the clock as a parameter. `createAppointment` takes
`now`. The constructor and `initializeSampleData` take `today` and `tomorrow`
as calendar dates.

## Model

| member | source | states |
|---|---|---|
| Schema.DefaultTrue | backup_barbearia/shared/schema.ts:30 | a `.default(true)` boolean column holds true unless the insert gave false, and holds the given value when one was given |
| Schema.BarberRow | backup_barbearia/shared/schema.ts:5-14 | the stored barber carries the new id, and the insert is recovered from it with the default for `available` filled in |
| Schema.ServiceRow | backup_barbearia/shared/schema.ts:16-23 | the stored service carries the new id, and stripping the id gives back the insert exactly |
| Schema.TimeSlotRow | backup_barbearia/shared/schema.ts:25-31 | the stored slot carries the new id, and the insert is recovered from it with `available` defaulted to true |
| Schema.AppointmentRow | backup_barbearia/shared/schema.ts:33-44 | the stored appointment carries the new id and `createdAt = now`, and stripping both gives back the caller's fields exactly |
| Schema.RowsAreInsertsPlusId | backup_barbearia/shared/schema.ts:46-49 | every row is the row built from its own insertable part and id (and creation time), so an insert omits exactly `id` (and `createdAt` for appointments) |
| Schema.SpreadBarberOf | backup_barbearia/server/storage.ts:190-195 | the object `{ ...barber, id }` carries the new id and every field of the insert, `available` included exactly when the insert gave it and then with the given value |
| Schema.SpreadTimeSlotOf | backup_barbearia/server/storage.ts:224-229 | the object `{ ...timeSlot, id }` carries the new id and every field of the insert, `available` included exactly when the insert gave it and then with the given value |
| Schema.SpreadAgreesIffFlagGiven | backup_barbearia/server/storage.ts:190-195 | for every barber or slot insert, the spread object equals the corrected row exactly when the caller gave `available` |
| Schema.SpreadLosesDefault | backup_barbearia/server/storage.ts:224-229 | a barber and a slot inserted without `available` are stored with no flag, while the table default makes them available |
| JsText.NatToString | backup_barbearia/client/src/lib/utils.ts:15-17 | `toString` of a natural number is a non-empty string of digits, one digit exactly below 10, with a leading '0' only for zero |
| JsText.IntToString | backup_barbearia/client/src/lib/utils.ts:17 | `toString` of an integer is non-empty, starts with '-' exactly for negatives, and is the digit string for non-negatives |
| JsText.PadStart | backup_barbearia/client/src/lib/utils.ts:15-17 | `padStart(width, fill)` gives `width` characters when the string is shorter and otherwise keeps its length; that it is then the string unchanged follows from `PadStartShape` |
| JsText.PadStartShape | backup_barbearia/client/src/lib/utils.ts:15-17 | the padded string ends with the original string and is `fill` before it |
| JsText.NatToStringRoundTrip | backup_barbearia/client/src/lib/utils.ts:15-17 | reading the decimal digits of `n.toString()` back gives `n` |
| JsText.NatToStringInjective | backup_barbearia/client/src/lib/utils.ts:15-17 | distinct naturals render as distinct digit strings |
| JsText.NegativeText | backup_barbearia/client/src/lib/utils.ts:17 | a negative number renders as '-' followed by the digits of its magnitude |
| JsText.IntToStringInjective | backup_barbearia/client/src/lib/utils.ts:17 | distinct integers render as distinct strings |
| JsText.TwoDigits | backup_barbearia/client/src/lib/utils.ts:15 | a number below 100 padded to width 2 with '0' is exactly its tens digit then its units digit |
| JsText.TwoDigitsValue | backup_barbearia/client/src/lib/utils.ts:15-17 | those two digits read back as the number |
| Utils.FormatDate | backup_barbearia/client/src/lib/utils.ts:14-18 | "DD/MM/YYYY": '/' at positions 2 and 5, two digits reading back as the day, two digits reading back as month+1, then the unpadded year |
| Utils.FormatDateInjective | backup_barbearia/client/src/lib/utils.ts:14-18 | distinct valid dates format to distinct strings, so comparing formatted dates compares dates |
| Utils.ClockTextRoundTrip | backup_barbearia/client/src/lib/utils.ts:55-56 | every clock text is five characters with ':' at index 2, its two fields read back as the hour and the minute, and together as the minute of the day |
| Utils.GridFrom | backup_barbearia/client/src/lib/utils.ts:54-57 | the hours from h to 17 give 2(18-h) entries |
| Utils.TimeGrid | backup_barbearia/client/src/lib/utils.ts:52-59 | the grid has exactly 18 entries |
| Utils.GridFromAt | backup_barbearia/client/src/lib/utils.ts:54-57 | entry k of the grid from hour h is the clock text of hour h + k/2, on the hour for even k and at half past for odd k |
| Utils.PushedTexts | backup_barbearia/client/src/lib/utils.ts:55-56 | the strings the loop pushes for an hour, `hour.toString().padStart(2, "0")` plus ":00" or ":30", are the clock texts of HH:00 and HH:30 |
| Utils.GenerateTimeSlots | backup_barbearia/client/src/lib/utils.ts:52-59 | the loop over hours 9..17 pushing HH:00 then HH:30 returns exactly the grid |
| Utils.TimeGridEntry | backup_barbearia/client/src/lib/utils.ts:54-57 | entry k is the clock text of hour 9 + k/2 and minute 00 or 30 by the parity of k |
| Utils.TimeGridShape | backup_barbearia/client/src/lib/utils.ts:54-57 | entry k is "HH:MM" and stands for 09:00 plus 30k minutes |
| Utils.TimeGridIncreasing | backup_barbearia/client/src/lib/utils.ts:54-57 | the grid is strictly increasing in time, hence free of duplicates |
| Utils.AfternoonLiteral | backup_barbearia/client/src/lib/utils.ts:52-59 | the grid from 13:00 written out is "13:00", "13:30", ..., "17:30" |
| Utils.TimeGridLiteral | backup_barbearia/client/src/lib/utils.ts:52-59 | the grid written out is "09:00", "09:30", ..., "17:30", first "09:00" and last "17:30" |
| Storage.Values | backup_barbearia/server/storage.ts:182-184 | listing a table gives next-1 entries, the k-th being the row under id k+1 (insertion order) |
| Storage.CardinalityOfDense | backup_barbearia/server/storage.ts:182-184 | a table holding exactly ids 1..next-1 has next-1 entries, so the listing shows every row once |
| Storage.Get | backup_barbearia/server/storage.ts:186-188 | `Map.get` returns an entry exactly for a key in the map, namely the one stored under it |
| Storage.GetAbsentExactlyForUnknownIds | backup_barbearia/server/storage.ts:186-188 | a lookup returns nothing exactly for ids below 1 or not yet handed out |
| Storage.AddBarber | backup_barbearia/server/storage.ts:190-195 | createBarber leaves the new row under the counter's old value, moves the counter on by one and changes no other field of the store |
| Storage.AddService | backup_barbearia/server/storage.ts:206-211 | the same for createService |
| Storage.AddTimeSlot | backup_barbearia/server/storage.ts:224-229 | the same for createTimeSlot, the row having `available` defaulted |
| Storage.AddAppointment | backup_barbearia/server/storage.ts:249-257 | the same for the insert half of createAppointment, the row carrying `createdAt = now` |
| Storage.AddBarberFresh | backup_barbearia/server/storage.ts:190-195 | createBarber hands out the counter's value, which no barber has, and moves the counter on; a lookup of it returns the new row; earlier rows and other tables unchanged; the tables stay valid |
| Storage.AddServiceFresh | backup_barbearia/server/storage.ts:206-211 | the same for createService |
| Storage.AddTimeSlotFresh | backup_barbearia/server/storage.ts:224-229 | the same for createTimeSlot |
| Storage.AddAppointmentFresh | backup_barbearia/server/storage.ts:249-257 | the same for the insert half of createAppointment, the row carrying `createdAt = now` |
| Storage.InsertAllContents | backup_barbearia/server/storage.ts:89 | inserting a list from id `next` on puts its k-th element under id next+k, keeps ids dense and keeps the earlier rows |
| Storage.AddBarbersContents | backup_barbearia/server/storage.ts:89 | a run of createBarber calls keeps the tables valid, appends the k-th barber under id next+k and changes nothing else |
| Storage.AddServicesContents | backup_barbearia/server/storage.ts:123 | the same for a run of createService calls |
| Storage.AddTimeSlotsContents | backup_barbearia/server/storage.ts:144-178 | the same for a run of createTimeSlot calls |
| Storage.AddTimeSlotsAppend | backup_barbearia/server/storage.ts:144-178 | two runs of slot creates in a row equal one run over the concatenated list |
| Storage.SlotsOf | backup_barbearia/server/storage.ts:214-218 | the filter keeps exactly the slots with that barber and date |
| Storage.SlotsOfIncreasing | backup_barbearia/server/storage.ts:214-218 | the filter keeps the original order: a list in ascending id order filters to one |
| Storage.SlotValues | backup_barbearia/server/storage.ts:214-216 | listing the slot table gives the stored slots in ascending id order, and a slot is listed exactly when it is stored under its own id |
| Storage.TimeSlotsFor | backup_barbearia/server/storage.ts:214-218 | every slot getTimeSlots returns has the requested barber and date |
| Storage.TimeSlotsForExact | backup_barbearia/server/storage.ts:214-218 | getTimeSlots(b, d) lists exactly the stored slots of barber b on date d, each as stored, in ascending id order |
| Storage.FirstAtTime | backup_barbearia/server/storage.ts:261 | `find` by time returns nothing exactly when no slot has that time, and otherwise a slot at that time with none before it |
| Storage.TimeSlotById | backup_barbearia/server/storage.ts:220-222 | getTimeSlot returns nothing exactly for an id with no slot, and otherwise the stored slot |
| Storage.UpdatedSlot | backup_barbearia/server/storage.ts:231-238 | updateTimeSlotAvailability returns nothing exactly for an unknown id, and otherwise the stored slot with only its flag replaced by the new value |
| Storage.SetAvailability | backup_barbearia/server/storage.ts:231-238 | the update touches only the slot table; an unknown id changes nothing, and a known id is then looked up as the returned slot |
| Storage.SetAvailabilityEffect | backup_barbearia/server/storage.ts:231-238 | an unknown id returns nothing and changes nothing; a known id returns the slot as now stored, only its flag changed, every other slot and table unchanged |
| Storage.FindsFirstMatch | backup_barbearia/server/storage.ts:259-261 | listing the barber's slots on that date and taking the first at that time finds nothing exactly when no stored slot matches, and otherwise the earliest-inserted match, as stored |
| Storage.FirstMatchUnique | backup_barbearia/server/storage.ts:259-261 | there is at most one earliest-inserted match |
| Storage.FirstMatchExists | backup_barbearia/server/storage.ts:259-261 | whenever some stored slot matches (barber, date, time), an earliest-inserted match exists |
| Storage.Book | backup_barbearia/server/storage.ts:259-265 | the cascade keeps the tables valid |
| Storage.CreateAppointment | backup_barbearia/server/storage.ts:249-267 | storing the appointment and running the cascade keeps the tables valid |
| Storage.BookMarksFirstMatch | backup_barbearia/server/storage.ts:259-265 | the cascade changes only the slots and keeps their ids: with no slot for (barber, date, time) nothing changes; otherwise exactly the first such slot in insertion order becomes unavailable |
| Storage.CreateAppointmentEffect | backup_barbearia/server/storage.ts:249-267 | createAppointment always stores the appointment under the fresh id with `createdAt = now`, leaves barbers and services alone, and changes the slots only as the cascade does |
| Storage.FirstMatchIgnoresFlag | backup_barbearia/server/storage.ts:260-261 | which slot is the first match does not depend on availability flags |
| Storage.BookAgainChangesNothing | backup_barbearia/server/storage.ts:259-265 | running the cascade again for the same barber, date and time after it has run changes no slot |
| Storage.BookTakenAgain | backup_barbearia/server/storage.ts:259-265 | once the first match is taken, the cascade takes the same slot again and so changes nothing |
| Storage.BookUnmatchedAgain | backup_barbearia/server/storage.ts:259-265 | with no matching slot, neither the first nor the second run changes the slots |
| Storage.DoubleBookingSucceeds | backup_barbearia/server/storage.ts:249-267 | two bookings of the same barber, date and time both succeed under consecutive ids, and the second leaves the slots as the first left them |
| SampleData.SeedBarbers | backup_barbearia/server/storage.ts:59-87 | the roster has three barbers, the first two available, the third as given (false in memory, true in the database) |
| SampleData.MemSlotOrder | backup_barbearia/server/storage.ts:144-178 | the in-memory seed creates six slots per time, all available |
| SampleData.DbSlotOrder | backup_barbearia/server/database-storage.ts:210-229 | the database seed creates six slots per time, all available |
| SampleData.Seed | backup_barbearia/server/database-storage.ts:151-229 | seeding moves each counter on by the size of its batch and leaves the appointments alone |
| SampleData.SeedValid | backup_barbearia/server/database-storage.ts:151-229 | seeding the roster, then the services, then the slots keeps the tables valid |
| SampleData.MemSample | backup_barbearia/server/storage.ts:42-55 | the store after construction is valid |
| SampleData.SeedSample | backup_barbearia/server/database-storage.ts:110-232 | the database after `initializeSampleData` is valid |
| SampleData.SeedTimesOnGrid | backup_barbearia/server/storage.ts:138-142 | the 16 seeded times are the client grid without its entries 12:00 and 12:30, in grid order |
| SampleData.LunchNotSeeded | backup_barbearia/server/storage.ts:138-142 | no slot is seeded at 12:00 or 12:30 |
| SampleData.SeedTimesDistinct | backup_barbearia/server/storage.ts:138-142 | the seeded times are pairwise distinct |
| SampleData.MemSlotAt | backup_barbearia/server/storage.ts:144-178 | in memory, time i's slots start at position 6i: barbers 1, 2, 3 today, then barbers 1, 2, 3 tomorrow |
| SampleData.DbSlotAt | backup_barbearia/server/database-storage.ts:210-229 | in the database, time i's slots start at position 6i: per barber 1, 2, 3, today's slot then tomorrow's |
| SampleData.MemBlockByDate | backup_barbearia/server/storage.ts:145-177 | one time's in-memory slots are barbers 1..3 today, then barbers 1..3 tomorrow |
| SampleData.DbBlockByBarber | backup_barbearia/server/database-storage.ts:212-228 | one time's database slots are, per barber 1..3, today's slot then tomorrow's |
| SampleData.PairsUpToStep | backup_barbearia/server/database-storage.ts:212-228 | one more pass of the barber loop appends today's slot, then tomorrow's |
| SampleData.BlocksSameSlots | backup_barbearia/server/database-storage.ts:212-228 | for one time, both stores create the same six slots |
| SampleData.SeedOrdersSameSlots | backup_barbearia/server/database-storage.ts:210-229 | both stores seed the same set of slots, in different orders |
| SampleData.DbSlotsDistinct | backup_barbearia/server/database-storage.ts:210-229 | with distinct times and today ≠ tomorrow, no (barber, date, time) is seeded twice by the database loops |
| SampleData.MemSlotsDistinct | backup_barbearia/server/storage.ts:144-178 | the same for the in-memory loops |
| SampleData.SeedAddsBarbers | backup_barbearia/server/database-storage.ts:151-153 | seeding appends the roster after the existing barbers under consecutive ids, keeping the existing ones |
| SampleData.SeedAddsServices | backup_barbearia/server/database-storage.ts:187-189 | seeding appends the services after the existing ones under consecutive ids, keeping the existing ones |
| SampleData.SeedAddsSlots | backup_barbearia/server/database-storage.ts:210-229 | seeding appends the slots after the existing ones under consecutive ids, keeping the existing ones and the appointments |
| SampleData.SeededSlotsAvailable | backup_barbearia/server/database-storage.ts:214-227 | every seeded slot is stored available |
| SampleData.MemSampleShape | backup_barbearia/server/storage.ts:57-179 | after construction: barbers 1..3 with the third unavailable, services 1..4, slots 1..96 all available, no appointment |
| SampleData.MemSampleSlot | backup_barbearia/server/storage.ts:144-178 | slot 6i+b is barber b at the i-th time today, and slot 6i+3+b the same tomorrow |
| SampleData.SeedSampleGuard | backup_barbearia/server/database-storage.ts:112-116 | seeding leaves the database unchanged exactly when some barber exists, whatever the other tables hold |
| SampleData.SeedSampleFills | backup_barbearia/server/database-storage.ts:121-229 | with no barbers, seeding adds barbers 1..3 all available, 4 services and 96 available slots in loop order after the existing rows, keeping existing rows and appointments |
| SampleData.SeedSampleIdempotent | backup_barbearia/server/database-storage.ts:112-116 | seeding a second time, on any later day, gives exactly the database that seeding once gives |
| SampleData.BookSlotOne | backup_barbearia/server/storage.ts:249-267 | on a store with all slots available and no appointment, booking slot 1's barber, date and time stores appointment 1 and takes slot 1 only |
| SampleData.MemSeedThenBook | backup_barbearia/server/storage.ts:249-267 | booking barber 1 at 09:00 today right after construction stores appointment 1 and takes slot 1; every other slot stays available |
| MemStore.MemStorage.constructor | backup_barbearia/server/storage.ts:42-55 | empty maps and counters at 1, then the sample data: the state is `MemSample` of the formatted dates |
| MemStore.MemStorage.InitializeData | backup_barbearia/server/storage.ts:57-179 | roster, services and slots created in the source's order: the state becomes `Seed` with the in-memory roster and slot order |
| MemStore.MemStorage.CreateBarbers | backup_barbearia/server/storage.ts:89 | the `forEach` over the roster performs that run of createBarber calls |
| MemStore.MemStorage.CreateServices | backup_barbearia/server/storage.ts:123 | the `forEach` over the services performs that run of createService calls |
| MemStore.MemStorage.CreateSlotsPerTime | backup_barbearia/server/storage.ts:144-178 | the `forEach` over the times creates the in-memory slot order |
| MemStore.MemStorage.CreateSlotsAt | backup_barbearia/server/storage.ts:145-177 | one time's body: three creates for barbers 1, 2, 3 today, then the `forEach` for tomorrow, giving that time's in-memory block |
| MemStore.MemStorage.CreateSlotsOn | backup_barbearia/server/storage.ts:170-177 | `[1, 2, 3].forEach` creates barbers 1, 2, 3's slots for one time and date, in that order |
| MemStore.MemStorage.GetBarbers | backup_barbearia/server/storage.ts:182-184 | returns every barber once, the k-th being the barber under id k+1 |
| MemStore.MemStorage.GetBarber | backup_barbearia/server/storage.ts:186-188 | returns a barber exactly for ids handed out so far, namely the one stored under that id |
| MemStore.MemStorage.CreateBarber | backup_barbearia/server/storage.ts:190-195 | stores the corrected row (the insert plus the counter's value as id, `available` defaulted to true) under an id no barber had, and moves the counter on; nothing else changes |
| MemStore.MemStorage.GetServices | backup_barbearia/server/storage.ts:198-200 | returns every service once, in id order |
| MemStore.MemStorage.GetService | backup_barbearia/server/storage.ts:202-204 | returns a service exactly for ids handed out so far |
| MemStore.MemStorage.CreateService | backup_barbearia/server/storage.ts:206-211 | stores the insert under a fresh id and moves the counter on; nothing else changes |
| MemStore.MemStorage.GetTimeSlots | backup_barbearia/server/storage.ts:214-218 | the filter loop returns exactly the stored slots of that barber and date, in ascending id order |
| MemStore.MemStorage.GetTimeSlot | backup_barbearia/server/storage.ts:220-222 | returns a slot exactly for ids handed out so far |
| MemStore.MemStorage.CreateTimeSlot | backup_barbearia/server/storage.ts:224-229 | stores the corrected row (the insert plus a fresh id, `available` defaulted to true) and moves the counter on; nothing else changes |
| MemStore.MemStorage.UpdateTimeSlotAvailability | backup_barbearia/server/storage.ts:231-238 | an unknown id returns nothing and changes nothing; otherwise the old slot with the new flag is stored back and returned |
| MemStore.MemStorage.GetAppointments | backup_barbearia/server/storage.ts:241-243 | returns every appointment once, in id order |
| MemStore.MemStorage.GetAppointment | backup_barbearia/server/storage.ts:245-247 | returns an appointment exactly for ids handed out so far |
| MemStore.MemStorage.CreateAppointment | backup_barbearia/server/storage.ts:249-268 | stores and returns the appointment under a fresh id with `createdAt = now`, then runs the cascade; the new state is `Storage.CreateAppointment` of the old one |
| DbStore.DatabaseStorage.constructor | backup_barbearia/server/database-storage.ts:235 | the store works on the database as it is, which must hold dense ids 1..next-1 in every table |
| DbStore.DatabaseStorage.GetBarbers | backup_barbearia/server/database-storage.ts:17-19 | returns every barber row once, in id order |
| DbStore.DatabaseStorage.GetBarber | backup_barbearia/server/database-storage.ts:21-24 | returns a row exactly when one has that id, otherwise undefined |
| DbStore.DatabaseStorage.CreateBarber | backup_barbearia/server/database-storage.ts:26-29 | inserts and returns the row with the next serial id and `available` defaulted |
| DbStore.DatabaseStorage.GetServices | backup_barbearia/server/database-storage.ts:32-34 | returns every service row once, in id order |
| DbStore.DatabaseStorage.GetService | backup_barbearia/server/database-storage.ts:36-39 | returns a row exactly when one has that id |
| DbStore.DatabaseStorage.CreateService | backup_barbearia/server/database-storage.ts:41-44 | inserts and returns the row with the next serial id |
| DbStore.DatabaseStorage.GetTimeSlots | backup_barbearia/server/database-storage.ts:47-56 | returns exactly the rows with that barber and date |
| DbStore.DatabaseStorage.GetTimeSlot | backup_barbearia/server/database-storage.ts:58-61 | returns a row exactly when one has that id, otherwise undefined |
| DbStore.DatabaseStorage.CreateTimeSlot | backup_barbearia/server/database-storage.ts:63-66 | inserts and returns the row with the next serial id and `available` defaulted |
| DbStore.DatabaseStorage.UpdateTimeSlotAvailability | backup_barbearia/server/database-storage.ts:68-76 | no row with that id: returns undefined and changes nothing; otherwise only that row's flag changes and the updated row is returned |
| DbStore.DatabaseStorage.GetAppointments | backup_barbearia/server/database-storage.ts:79-81 | returns every appointment row once, in id order |
| DbStore.DatabaseStorage.GetAppointment | backup_barbearia/server/database-storage.ts:83-86 | returns a row exactly when one has that id, otherwise undefined |
| DbStore.DatabaseStorage.CreateAppointment | backup_barbearia/server/database-storage.ts:88-107 | inserts the appointment with `createdAt = now` and returns it, then runs the cascade on the first slot at that time |
| DbStore.DatabaseStorage.InitializeSampleData | backup_barbearia/server/database-storage.ts:110-232 | returns at once when `getBarbers()` is non-empty, otherwise seeds: the database becomes `SeedSample` of the old one |
| DbStore.DatabaseStorage.CreateBarbers | backup_barbearia/server/database-storage.ts:151-153 | the loop over the roster performs that run of inserts |
| DbStore.DatabaseStorage.CreateServices | backup_barbearia/server/database-storage.ts:187-189 | the loop over the services performs that run of inserts |
| DbStore.DatabaseStorage.CreateSlotsPerTime | backup_barbearia/server/database-storage.ts:210-229 | the loop over the times creates the database slot order |
| DbStore.DatabaseStorage.CreateSlotsAt | backup_barbearia/server/database-storage.ts:212-228 | one time's body creates, per barber 1..3, today's slot and then tomorrow's |

## Left out

- React pages and components, Express routes (`server/routes.ts`), the `fetch` wrappers (`client/src/lib/api.ts`) and `scripts/init-db.ts` are not part of this model.
- `formatPrice` (floating-point division and `toFixed`), `getDatesInMonth`, `isToday`, `isPast` (calendar arithmetic and the system clock) and `cn` (a call into clsx/tailwind-merge) are not part of this model.
- The clock: `new Date()` for `createdAt` is the parameter `now`, and "today"/"tomorrow" are parameters given as (day, 0-based month, year). The calendar step `setDate(getDate() + 1)` that makes tomorrow from today is not modelled, so nothing checks that `tomorrow` is the day after `today`.
- The seeding code formats dates with a local function that is the same expression as the client's `formatDate`; both stores call `Utils.FormatDate`.
- SQL mechanics: drizzle queries, Postgres `serial` sequences (and their 32-bit overflow), `console.log` and the database connection. The tables are the abstract `Tables` value; a sequence is its counter, and no insert fails.
- DbStore.DatabaseStorage.GetTimeSlots: Postgres returns rows without `ORDER BY` in no guaranteed order; the model returns them in id order, and the contract fixes that order.
- DbStore.DatabaseStorage.GetBarbers: the same holds; the model lists the rows in id order.
- DbStore.DatabaseStorage.GetServices: the same holds; the model lists the rows in id order.
- DbStore.DatabaseStorage.GetAppointments: the same holds; the model lists the rows in id order.
- DbStore.DatabaseStorage.CreateAppointment: its cascade lists the slots with an unordered `select` and marks the first at that time. When several slots share a (barber, date, time), which can happen after seeding over existing slots, Postgres may hand back any of them first; the model always marks the lowest id.
- DbStore.DatabaseStorage.constructor: requires each table to hold exactly the ids 1..next-1, that is, no row was ever deleted and no sequence value was skipped. A real `serial` sequence does not restart after a `DELETE`. In such a state `initializeSampleData` would give the seeded barbers ids other than 1..3, while its slot loop still names barbers 1, 2 and 3; the model does not cover that state.
- MemStore.MemStorage.CreateBarber: stores the corrected row, with `available` defaulted to true, not the spread `{ ...barber, id }`; the spread as written is `Schema.SpreadBarberOf` (see Findings below).
- MemStore.MemStorage.CreateTimeSlot: stores the corrected row, with `available` defaulted to true, not the spread `{ ...timeSlot, id }`; the spread as written is `Schema.SpreadTimeSlotOf` (see Findings below).
- Storage.AddBarber: for the in-memory store it states the corrected row, with `available` defaulted, not the spread object `{ ...barber, id }`.
- Storage.AddBarberFresh: for the in-memory store it states the corrected row, with `available` defaulted, not the spread object `{ ...barber, id }`.
- Storage.AddBarbersContents: for the in-memory store it states the corrected row, with `available` defaulted, not the spread object `{ ...barber, id }`.
- Storage.AddTimeSlot: for the in-memory store it states the corrected row, with `available` defaulted, not the spread object `{ ...timeSlot, id }`.
- Storage.AddTimeSlotFresh: for the in-memory store it states the corrected row, with `available` defaulted, not the spread object `{ ...timeSlot, id }`.
- Storage.AddTimeSlotsContents: for the in-memory store it states the corrected row, with `available` defaulted, not the spread object `{ ...timeSlot, id }`.
- Concurrency: the methods are async, and every `await` is modelled as one step run in sequence with the others. Interleavings are not captured. In particular, another request may run between `createAppointment`'s insert and its slot update. Two concurrent `initializeSampleData` calls may also both pass the barber guard and seed twice.
- Object identity: the in-memory store returns the very objects it stores, so a caller mutating a returned row would change the store. The model works on values and does not capture this aliasing.
- Integers are unbounded; JavaScript numbers lose precision above 2^53, which no id or counter here reaches in practice.
- The seeding loops are split into methods (`CreateBarbers`, `CreateServices`, `CreateSlotsPerTime`, `CreateSlotsAt`) that run the same creates in the same order as the source's loop bodies.

## Findings

| source | as written | input that shows it | evidently intended | confidence | as-written member | corrected member |
|---|---|---|---|---|---|---|
| backup_barbearia/server/storage.ts:224-229 | `createTimeSlot` stores `{ ...timeSlot, id }`, so an insert that omits the optional `available` is stored with no `available` at all (`Schema.SpreadAgreesIffFlagGiven`, `Schema.SpreadLosesDefault`) | the slot insert (barberId 1, "09:00", "01/01/2030") without `available` | the column default: the slot is stored as available, as the database store does | not executed; low, the seed always passes the flag | Schema.SpreadTimeSlotOf | Schema.TimeSlotRow |
| backup_barbearia/server/storage.ts:190-195 | `createBarber` stores `{ ...barber, id }`, so an insert that omits the optional `available` is stored with no `available` at all (`Schema.SpreadAgreesIffFlagGiven`, `Schema.SpreadLosesDefault`) | a barber insert without `available` | the column default: the barber is stored as available, as the database store does | not executed; low, the seed always passes the flag | Schema.SpreadBarberOf | Schema.BarberRow |
