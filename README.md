# Hospital appointment system: a Dafny model

The project models the core of a student hospital's appointment scheduler:

- the `AppointmentSystem` class, which allocates appointment slots;
- the `Patient` value it stores;
- the part of `JsonReader` that rebuilds an `AppointmentSystem` from a JSON document.

A day has nine one-hour slots (`TOTAL_SIZE`). The slot at index `i` is the appointment at hour `8 + i`.

- **Booking.** A booking fills the lowest hole. If there is no hole, it appends. If all nine slots are taken, the patient joins an unbounded FIFO waitlist.
- **Cancelling.** Cancelling an appointment gives the freed slot to the head of the waitlist. If nobody is waiting, the slot becomes a hole (Java's `null`).
- **Loading.** The reader turns the document `toJson` writes back into the same state.

Files:

- `wrappers.dfy`: `Option` and `Result`.
- `json.dfy`: Java's 32-bit `int` (`Int32`) and an abstract JSON document. It stands in for org.json's values and holds the four accessors the reader uses: `getString`, `getInt`, `getJSONArray` and the cast to `JSONObject`.
- `patient.dfy`: the `Patient` datatype and its JSON object.
- `appointment_system.dfy`: the parts that model `AppointmentSystem.java`:
  - the state as a value (`State`);
  - the behaviour of each operation as a function of that state (`AfterBooking`, `AfterCancelling`, `AfterCancellingWaitlist`, `AppointmentTime`, `WaitlistPosition`, `StateJson`);
  - the mutable class `AppointmentSystem`. Each of its loop-based methods is proved to follow the matching function.
- `appointment_lemmas.dfy`: the properties of those functions. These include:
  - a reachable-state invariant over any sequence of bookings and cancellations;
  - general lemmas about a full day, and the days of three `AppointmentSystemTest` tests, with the tests' own student numbers, as instances of those lemmas.
- `json_reader.dfy`: the loader:
  - a pure parse of the document (`ParseDocument`);
  - the reader's three methods, proved to follow that parse;
  - the save/load round trip.

Behaviour the model keeps from the code:

- **`bookAppointment` returns a Boolean.** A caller might expect the slot index or the waitlist position. `bookAppointment` returns only a flag (AppointmentSystem.java:36-38): `true` means the patient was waitlisted, `false` means a slot was taken. The time or position is obtained by a separate lookup, as the lemmas show.
- **Duplicate student numbers are accepted.** Every lookup and every cancellation acts on the first entry with that number.
- **`isAppointmentListEmpty` has an odd boundary.** It holds for `[]` and for `[null]`, but not for `[null, null]`.
- **Loading does not check capacity.** A loaded list may be longer than nine. A booking into such a list with no hole appends past nine, because such a list is never "full".

Student numbers are Java `int`s. A "Student number" in a document is narrowed to an `int` by `intValue()`, so an out-of-range number wraps (4294967297 loads as patient 1).

Patients are compared by value. In the Java code each `Patient` object is created once per booking or per loaded element, and that object is in at most one place. So `indexOf(patient)`, `remove(patient)` and the loop index all select the same entry as the first value that is equal to it.

## Model

| member | source | states |
|---|---|---|
| Appointments.IndexOf | src/main/AppointmentSystem.java:75 | `indexOf`: the result is -1 exactly when the element is absent. Otherwise it is the index of the first occurrence: the element is there and appears at no earlier index. |
| Appointments.IndexOfIsFirst | src/main/AppointmentSystem.java:73-75 | The first matching index that a forward scan meets is exactly what `indexOf` returns. |
| Appointments.AppointmentTime | src/main/AppointmentSystem.java:118-127 | The time is -1 exactly when no slot holds the student number. Otherwise it is `8 + i`, where `i` is the first slot holding it. Holes count as hours. |
| Appointments.WaitlistPosition | src/main/AppointmentSystem.java:141-151 | The position is -1 exactly when no waitlist entry has the number. Otherwise it is the 1-based position of the first entry that has it. |
| Appointments.IsFull | src/main/AppointmentSystem.java:175-181 | Full holds exactly when there are nine entries and none is a hole. |
| Appointments.IsEmpty | src/main/AppointmentSystem.java:187-193 | Empty holds exactly for `[]` and `[null]`. |
| Appointments.AfterBooking | src/main/AppointmentSystem.java:34-62 | The flag is true exactly when the list was full. A slot booking leaves the waitlist unchanged; a waitlisting leaves the list unchanged. The name is kept. The list never shrinks, and a list of at most nine entries stays at most nine. BookFillsLowestHole, BookAppendsWithoutHole and BookWaitlistsWhenFull give each case's whole new state. |
| Appointments.AfterCancelling | src/main/AppointmentSystem.java:64-93 | The result is true exactly when some slot holds the number. A false result leaves the state unchanged. The list's length and name are kept, as is every slot not holding the number. CancelPromotesWaitlistHead and CancelLeavesHole give the whole new state. |
| Appointments.AfterCancellingWaitlist | src/main/AppointmentSystem.java:95-110 | The result is true exactly when the number is on the waitlist, and then the waitlist loses one entry. A false result leaves the state unchanged. The appointment list and the name are never touched. CancelWaitlistRemovesFirstMatch gives the new waitlist. |
| Appointments.AppointmentSystem.IsAppointmentListFull | src/main/AppointmentSystem.java:175-181 | True exactly when the list has nine entries and none is a hole. |
| Appointments.AppointmentSystem.IsAppointmentListEmpty | src/main/AppointmentSystem.java:187-193 | True exactly when the list is `[]` or `[null]`. EmptyBoundary records that `[null, null]` is not empty. |
| Appointments.AppointmentSystem.IsWaitlistEmpty | src/main/AppointmentSystem.java:199-201 | True exactly when every student number's waitlist position is -1. |
| Appointments.AppointmentSystem.GetAppointmentListPatientNum | src/main/AppointmentSystem.java:160-165 | The list's size, holes included. Every appointment time is below 8 plus this size. |
| Appointments.AppointmentSystem.GetWaitlistPatientNum | src/main/AppointmentSystem.java:167-169 | The waitlist's size. No waitlist position exceeds it. |
| Appointments.AppointmentSystem.GetHospitalName | src/main/AppointmentSystem.java:206-208 | The system's name. NewSystemStaysConsistent shows that no operation changes the name given to the constructor. |
| Appointments.AppointmentSystem.constructor | src/main/AppointmentSystem.java:28-32 | A new system has the given name and an empty appointment list and waitlist. |
| Appointments.AppointmentSystem.BookAppointment | src/main/AppointmentSystem.java:40-62 | The new state and the returned flag are exactly what `AfterBooking` gives for the old state. `newPatient` is the booked patient. |
| Appointments.AppointmentSystem.CancelAppointment | src/main/AppointmentSystem.java:72-93 | The new state and the returned flag are exactly what `AfterCancelling` gives for the old state. |
| Appointments.AppointmentSystem.CancelWaitlist | src/main/AppointmentSystem.java:100-110 | The new state and the returned flag are exactly what `AfterCancellingWaitlist` gives for the old state. |
| Appointments.AppointmentSystem.GetAppointmentTime | src/main/AppointmentSystem.java:118-127 | The loop with its hour counter returns `AppointmentTime` of the list. |
| Appointments.AppointmentSystem.GetWaitlistPosition | src/main/AppointmentSystem.java:141-151 | The loop with its position counter returns `WaitlistPosition` of the waitlist. |
| Appointments.AppointmentSystem.ToJson | src/main/AppointmentSystem.java:214-220 | The document has the keys "name", "appointment list" and "wait list", holding the state's name and its two lists. |
| Appointments.AppointmentSystem.AppointmentListToJson | src/main/AppointmentSystem.java:225-237 | One array element per slot, in order: the patient's object, or null for a hole. |
| Appointments.AppointmentSystem.WaitlistToJson | src/main/AppointmentSystem.java:242-250 | One patient object per waitlist entry, in order. |
| Appointments.AppointmentSystem.AddToAppointmentList | src/main/AppointmentSystem.java:256-258 | Appends the entry, which may be a hole, without a capacity check. Nothing else changes. |
| Appointments.AppointmentSystem.AddToWaitlist | src/main/AppointmentSystem.java:264-266 | Appends the patient to the waitlist. Nothing else changes. |
| Patients.Patient.GetStudentNum | src/main/model/Patient.java:18-20 | The student number alone determines the patient. |
| Patients.Patient.ToJson | src/main/model/Patient.java:24-28 | The object has exactly one key, "Student number", which maps to the student number. |
| Patients.GetStudentNumReturnsConstructorArgument | src/main/model/Patient.java:14-20 | The getter returns what the constructor was given. |
| AppointmentLemmas.BookFillsLowestHole | src/main/AppointmentSystem.java:42-50 | Below capacity, the lowest hole gets the patient and the result is false. That patient's time is that slot's hour. |
| AppointmentLemmas.BookAppendsWithoutHole | src/main/AppointmentSystem.java:52-55 | With no hole and a length other than nine, the patient is appended and the result is false. This covers lists shorter than nine and loaded lists longer than nine. Their time is the next hour. |
| AppointmentLemmas.BookWaitlistsWhenFull | src/main/AppointmentSystem.java:56-61 | When full, the patient is appended to the waitlist and the result is true. A newcomer's position is the new waitlist length. |
| AppointmentLemmas.CancelPromotesWaitlistHead | src/main/AppointmentSystem.java:74-83 | With somebody waiting, the waitlist head takes the cancelled slot and leaves the waitlist. The head's time is that slot's hour. |
| AppointmentLemmas.PromotionMovesWaitlistUp | src/main/AppointmentSystem.java:76-79 | After a promotion, every other waiting patient moves up one position. |
| AppointmentLemmas.CancelLeavesHole | src/main/AppointmentSystem.java:84-89 | With nobody waiting, the cancelled slot becomes a hole and the result is true. |
| AppointmentLemmas.CancelTwiceFails | src/main/AppointmentSystem.java:72-93 | A second cancellation of the same number fails. This needs the number to be booked at most once and not to head the waitlist. |
| AppointmentLemmas.CancelThenBookReusesSlot | src/main/AppointmentSystem.java:40-93 | With nobody waiting and no earlier hole, cancelling and then booking puts the newcomer in the freed slot. |
| AppointmentLemmas.CancelWaitlistRemovesFirstMatch | src/main/AppointmentSystem.java:100-107 | The first entry with the number is removed and the result is true. Earlier entries stay in place and later ones shift down by one. |
| AppointmentLemmas.IndexOfAfterRemoval | src/main/AppointmentSystem.java:103 | Removing another entry keeps an element's first index when that index is earlier, and lowers it by one when it is later. |
| AppointmentLemmas.CancelWaitlistMovesLaterUp | src/main/AppointmentSystem.java:100-110 | Positions before the removed entry are kept. Later positions move up by one. |
| AppointmentLemmas.EmptyBoundary | src/main/AppointmentSystem.java:187-193 | A single hole counts as empty, but two holes do not, although nobody is booked in either. |
| AppointmentLemmas.ApplyPreserves | src/main/AppointmentSystem.java:40-110 | Each operation keeps: at most nine slots, and a waitlist only while the list is full. It also keeps the name and never shortens the list. |
| AppointmentLemmas.RunPreserves | src/main/AppointmentSystem.java:40-110 | The same holds for any sequence of bookings and cancellations. |
| AppointmentLemmas.NewSystemStaysConsistent | src/main/AppointmentSystem.java:28-110 | From a new system, any sequence of bookings and cancellations keeps at most nine slots, a waitlist only while full, and the name. |
| AppointmentLemmas.BookingsAppendInOrder | src/main/AppointmentSystem.java:52-55 | Bookings into a list with no hole and enough room are appended in order. |
| AppointmentLemmas.NineBookingsFillTheDay | src/test/model/AppointmentSystemTest.java:55-69 | Nine distinct bookings into a new system give nine entries, an empty waitlist and a full list. The `k`-th patient's time is `8 + k`. |
| AppointmentLemmas.PromotionAndCancellation | src/main/AppointmentSystem.java:40-93 | On a full day with nobody waiting:<br>• a newcomer waits at position 1;<br>• cancelling a booked patient promotes the newcomer to that slot's hour and empties the waitlist;<br>• cancelling the newcomer then leaves nine entries, not full, and the newcomer not found. |
| AppointmentLemmas.TwoNewcomersWaitInOrder | src/main/AppointmentSystem.java:56-61 | On a full day with nobody waiting, two distinct new numbers are waitlisted, in booking order, at positions 1 and 2. |
| AppointmentLemmas.PromotionWithTwoWaiting | src/main/AppointmentSystem.java:72-93 | With two distinct patients waiting, cancelling a booked patient's first slot `i` gives it to the first waiter, whose time becomes `8 + i`. The second waiter moves up to position 1. The list keeps its length and one patient still waits. |
| AppointmentLemmas.BookingUntilFull | src/test/model/AppointmentSystemTest.java:55-69 | Booking 11111111 to 99999999 into a new system gives those nine patients in order: nine appointments, zero waiting, and a full list. |
| AppointmentLemmas.BookingUntilWaitlist | src/test/model/AppointmentSystemTest.java:72-96 | On that day, booking 12345678 and then 98765432 waitlists both. The list keeps nine entries, two wait, and they are at positions 1 and 2. |
| AppointmentLemmas.CancelAppointmentWithReplace | src/test/model/AppointmentSystemTest.java:126-147 | With those two waiting, cancelling 44444444 succeeds. The list keeps nine entries and one patient waits. 12345678 is at 11, and 98765432 is at position 1. |
| Persistence.ParseDocument | src/main/persistence/JsonReader.java:45-51 | Loading succeeds exactly when the name, the appointment list and the waitlist all parse. The errors are checked in that order: the name first, then the appointment list. SaveLoadRoundTrip and LoadedContents state what a successful load holds. |
| Persistence.ParseAppointmentSystem | src/main/persistence/JsonReader.java:45-51 | A system is returned exactly when the document parses, and it is fresh and holds the parsed state. Otherwise the parse's error is returned. |
| Persistence.AddPatientsToAppointmentList | src/main/persistence/JsonReader.java:55-67 | Either appends every parsed element of "appointment list", or reports the error of the first element that fails. |
| Persistence.AddPatientsToWaitList | src/main/persistence/JsonReader.java:71-79 | Either appends every parsed element of "wait list", or reports the error of the first element that fails. |
| Persistence.ParseSlotsElementwise | src/main/persistence/JsonReader.java:57-66 | The list parses exactly when every element does, giving one slot per element in order. A failure carries the error of the first element that fails. |
| Persistence.ParseWaitlistElementwise | src/main/persistence/JsonReader.java:73-78 | The same for the waitlist, whose every element must be a patient object. A failure carries the error of the first element that fails. |
| Persistence.PatientRoundTrip | src/main/persistence/JsonReader.java:61-63 | A patient's object reads back as the same patient. |
| Persistence.SlotRoundTrip | src/main/persistence/JsonReader.java:58-64 | A hole reads back as a hole, and a patient as the same patient. |
| Persistence.AppointmentListRoundTrip | src/main/persistence/JsonReader.java:55-67 | The written appointment list reads back unchanged, holes and order included. |
| Persistence.WaitlistRoundTrip | src/main/persistence/JsonReader.java:71-79 | The written waitlist reads back unchanged, in order. |
| Persistence.SaveLoadRoundTrip | src/main/persistence/JsonReader.java:45-51 | Loading the document `toJson` writes gives back the same name and lists. |
| Persistence.EmptySystemRoundTrip | src/test/persistence/JsonWriterTest.java:29-45 | A new system, written and read back, has its name and two empty lists. |
| Persistence.LoadedContents | src/main/persistence/JsonReader.java:45-79 | A successful load has the document's name and one entry per array element. Holes sit exactly where the nulls were. Every other element, in either array, is an object whose "Student number", narrowed to an `int`, is the loaded patient's number. |
| Persistence.OutOfRangeStudentNumberWraps | src/main/persistence/JsonReader.java:62 | `getInt` narrows by `intValue()`: the number 2^32 + 1 loads as patient 1, and 2^31 loads as patient -2^31. |
| Persistence.NullWaitlistEntryIsRejected | src/main/persistence/JsonReader.java:73-74 | A null in "wait list" makes loading fail. |

## Left out

- EventLog: the audit records written on each booking and cancellation are a side effect and are not modelled.
- File reading (`JsonReader.read`, `readFile`), `JsonWriter` and the text format of org.json are not modelled. A document is an abstract JSON tree.
- `getAppointmentList` and `getWaitlist` return the live Java lists, which callers could mutate. The model has no aliasing, so these getters are just the fields.
- A null hospital name is not modelled: the name is always a string. With `null`, org.json would drop the "name" key and loading would fail.
- Json.GetInt: org.json's `getInt` also converts numeric strings and truncates non-integer numbers. The model accepts only integer numbers, which it narrows to an `int` as `intValue()` does.
- The console and Swing user interfaces are not modelled.
- Patients have no object identity. Each Java `Patient` object sits in at most one place, so value equality picks the same entries.
- ParseAppointmentSystem: on an error, Java throws. A missing or non-string "name" throws before any system exists. A bad array or element throws after a system has been partly filled, and that system is then discarded. The model returns the error and no system, not the partly filled object.
- Patients.Patient: the requirement that student numbers have eight digits is not checked, matching the code.
- Integer width: student numbers are modelled as 32-bit `int`s. Hours, positions and sizes use unbounded integers, because they stay below 2^31 for any list that fits in memory.
