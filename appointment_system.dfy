/**
 * The appointment slot allocator of a student hospital. The appointment list
 * holds at most nine one-hour slots, the slot at index i being the
 * appointment at hour 8 + i. A cancellation either promotes the head of an
 * unbounded FIFO waitlist into the freed slot or leaves a hole there; a
 * booking fills the lowest hole, else appends, else joins the waitlist.
 *
 * The first half of the module gives the behaviour of every operation as a
 * function of the state; the class AppointmentSystem is the mutable object
 * of the program, each of whose methods is proved to follow its function.
 */
module Appointments {
  import opened Wrappers
  import opened Json
  import opened Patients

  /** Number of appointment slots in a day (TOTAL_SIZE). */
  const TotalSize: nat := 9

  /** Hour of the slot at index 0. */
  const FirstHour: int := 8

  /** What the lookups return for a student number they do not find. */
  const NotFound: int := -1

  /** Keys of the document `toJson` writes. */
  const NameKey: string := "name"
  const AppointmentListKey: string := "appointment list"
  const WaitListKey: string := "wait list"

  /** An entry of the appointment list; None is the hole a cancellation leaves (Java's null). */
  type Slot = Option<Patient>

  /** Everything an appointment system shows: its name and its two lists. */
  datatype State = State(hospitalName: string, appointmentList: seq<Slot>, waitlist: seq<Patient>)

  /** The state an operation leaves and the boolean it returns. */
  datatype Transition = Transition(after: State, returned: bool)

  // ---------------------------------------------------------------------
  // Searching

  /** Index of the first occurrence of x in s (List.indexOf), or NotFound. */
  function IndexOf<T(==)>(s: seq<T>, x: T): (i: int)
    ensures NotFound <= i < |s|
    ensures i == NotFound <==> x !in s
    ensures 0 <= i ==> s[i] == x && forall j :: 0 <= j < i ==> s[j] != x
  {
    if s == [] then NotFound
    else if s[0] == x then 0
    else
      var k := IndexOf(s[1..], x);
      if k == NotFound then NotFound else k + 1
  }

  /** The index the contract of IndexOf describes is the only one it can return. */
  lemma IndexOfIsFirst<T>(s: seq<T>, x: T, i: int)
    requires 0 <= i < |s| && s[i] == x
    requires forall j :: 0 <= j < i ==> s[j] != x
    ensures IndexOf(s, x) == i
  {
  }

  // ---------------------------------------------------------------------
  // Queries

  /** The list has a hole (`appointmentList.contains(null)`). */
  predicate HasHole(list: seq<Slot>)
  {
    None in list
  }

  /** isAppointmentListFull: no hole and exactly TotalSize entries. */
  predicate IsFull(list: seq<Slot>)
    ensures IsFull(list) <==> |list| == TotalSize && forall j :: 0 <= j < |list| ==> list[j].Some?
  {
    !HasHole(list) && |list| == TotalSize
  }

  /**
   * isAppointmentListEmpty, with the source's boundary: a list with a hole is
   * empty when its size is one, a list without a hole when its size is zero.
   * So exactly two lists are empty: the empty one and a single hole.
   */
  predicate IsEmpty(list: seq<Slot>)
    ensures IsEmpty(list) <==> list == [] || list == [None]
  {
    if HasHole(list) then
      assert |list| == 1 ==> list == [list[0]];
      |list| - 1 == 0
    else
      |list| == 0
  }

  /**
   * getAppointmentTime: the hour of the first occupied slot holding the
   * student number, holes counting as hours, or NotFound.
   */
  function AppointmentTime(list: seq<Slot>, studentNum: Int32): (time: int)
    ensures time == NotFound <==> Some(Patient(studentNum)) !in list
    ensures time != NotFound ==>
      && FirstHour <= time < FirstHour + |list|
      && list[time - FirstHour] == Some(Patient(studentNum))
      && forall j :: 0 <= j < time - FirstHour ==> list[j] != Some(Patient(studentNum))
  {
    var i := IndexOf(list, Some(Patient(studentNum)));
    if i == NotFound then NotFound else FirstHour + i
  }

  /** getWaitlistPosition: the 1-based position of the first entry with the student number, or NotFound. */
  function WaitlistPosition(waitlist: seq<Patient>, studentNum: Int32): (pos: int)
    ensures pos == NotFound <==> Patient(studentNum) !in waitlist
    ensures pos != NotFound ==>
      && 1 <= pos <= |waitlist|
      && waitlist[pos - 1] == Patient(studentNum)
      && forall j :: 0 <= j < pos - 1 ==> waitlist[j] != Patient(studentNum)
  {
    var i := IndexOf(waitlist, Patient(studentNum));
    if i == NotFound then NotFound else i + 1
  }

  // ---------------------------------------------------------------------
  // Operations, as functions of the state

  /**
   * bookAppointment. The flag returned is true when the patient was put on
   * the waitlist and false when the patient got a slot.
   */
  function AfterBooking(s: State, studentNum: Int32): (t: Transition)
    ensures t.returned <==> IsFull(s.appointmentList)
    ensures !t.returned ==> t.after.waitlist == s.waitlist
    ensures t.returned ==> t.after.appointmentList == s.appointmentList
    ensures t.after.hospitalName == s.hospitalName
    ensures |s.appointmentList| <= |t.after.appointmentList|
    ensures |s.appointmentList| <= TotalSize ==> |t.after.appointmentList| <= TotalSize
  {
    var p := Patient(studentNum);
    if !IsFull(s.appointmentList) then
      var i := IndexOf(s.appointmentList, None);
      if i != NotFound then
        Transition(s.(appointmentList := s.appointmentList[i := Some(p)]), false)
      else
        Transition(s.(appointmentList := s.appointmentList + [Some(p)]), false)
    else
      Transition(s.(waitlist := s.waitlist + [p]), true)
  }

  /**
   * cancelAppointment: the first slot holding the student number goes to the
   * head of the waitlist, or becomes a hole when nobody waits.
   */
  function AfterCancelling(s: State, studentNum: Int32): (t: Transition)
    ensures t.returned <==> Some(Patient(studentNum)) in s.appointmentList
    ensures !t.returned ==> t.after == s
    ensures |t.after.appointmentList| == |s.appointmentList|
    ensures forall j :: 0 <= j < |s.appointmentList| && s.appointmentList[j] != Some(Patient(studentNum)) ==>
      t.after.appointmentList[j] == s.appointmentList[j]
    ensures t.after.hospitalName == s.hospitalName
  {
    var i := IndexOf(s.appointmentList, Some(Patient(studentNum)));
    if i == NotFound then
      Transition(s, false)
    else if s.waitlist != [] then
      Transition(s.(appointmentList := s.appointmentList[i := Some(s.waitlist[0])],
                    waitlist := s.waitlist[1..]), true)
    else
      Transition(s.(appointmentList := s.appointmentList[i := None]), true)
  }

  /** cancelWaitlist: the first waitlist entry with the student number leaves the waitlist. */
  function AfterCancellingWaitlist(s: State, studentNum: Int32): (t: Transition)
    ensures t.returned <==> Patient(studentNum) in s.waitlist
    ensures !t.returned ==> t.after == s
    ensures t.returned ==> |t.after.waitlist| == |s.waitlist| - 1
    ensures t.after.appointmentList == s.appointmentList
    ensures t.after.hospitalName == s.hospitalName
  {
    var i := IndexOf(s.waitlist, Patient(studentNum));
    if i == NotFound then
      Transition(s, false)
    else
      Transition(s.(waitlist := s.waitlist[..i] + s.waitlist[i + 1..]), true)
  }

  // ---------------------------------------------------------------------
  // The document toJson writes

  /** One element of the "appointment list" array: a patient object, or null for a hole. */
  function SlotJson(slot: Slot): Json
  {
    match slot
    case None => JNull
    case Some(p) => JObject(p.ToJson())
  }

  function AppointmentListJson(list: seq<Slot>): seq<Json>
  {
    seq(|list|, k requires 0 <= k < |list| => SlotJson(list[k]))
  }

  function WaitlistJson(waitlist: seq<Patient>): seq<Json>
  {
    seq(|waitlist|, k requires 0 <= k < |waitlist| => JObject(waitlist[k].ToJson()))
  }

  function StateJson(s: State): JsonObject
  {
    map[NameKey := JString(s.hospitalName),
        AppointmentListKey := JArray(AppointmentListJson(s.appointmentList)),
        WaitListKey := JArray(WaitlistJson(s.waitlist))]
  }

  // ---------------------------------------------------------------------
  // The mutable object

  class AppointmentSystem {
    var hospitalName: string
    /** The patient created by the latest booking. */
    var newPatient: Option<Patient>
    var appointmentList: seq<Slot>
    var waitlist: seq<Patient>

    function Snapshot(): State
      reads this
    {
      State(hospitalName, appointmentList, waitlist)
    }

    constructor (hospitalName: string)
      ensures Snapshot() == State(hospitalName, [], [])
      ensures newPatient == None
    {
      this.hospitalName := hospitalName;
      newPatient := None;
      appointmentList := [];
      waitlist := [];
    }

    /** Returns true when the patient was waitlisted, false when booked. */
    method BookAppointment(studentNum: Int32) returns (waitlisted: bool)
      modifies this
      ensures AfterBooking(old(Snapshot()), studentNum) == Transition(Snapshot(), waitlisted)
      ensures newPatient == Some(Patient(studentNum))
    {
      newPatient := Some(Patient(studentNum));
      if !IsAppointmentListFull() {
        var index := 0;
        while index < |appointmentList|
          invariant 0 <= index <= |appointmentList|
          invariant Snapshot() == old(Snapshot())
          invariant forall j :: 0 <= j < index ==> appointmentList[j] != None
        {
          if appointmentList[index] == None {
            IndexOfIsFirst(appointmentList, None, index);
            appointmentList := appointmentList[index := newPatient];
            return false;
          }
          index := index + 1;
        }
        appointmentList := appointmentList + [newPatient];
        return false;
      } else {
        waitlist := waitlist + [newPatient.value];
        return true;
      }
    }

    method CancelAppointment(studentNum: Int32) returns (cancelled: bool)
      modifies this
      ensures AfterCancelling(old(Snapshot()), studentNum) == Transition(Snapshot(), cancelled)
      ensures newPatient == old(newPatient)
    {
      var index := 0;
      while index < |appointmentList|
        invariant 0 <= index <= |appointmentList|
        invariant Snapshot() == old(Snapshot()) && newPatient == old(newPatient)
        invariant forall j :: 0 <= j < index ==> appointmentList[j] != Some(Patient(studentNum))
      {
        var patient := appointmentList[index];
        if patient != None && patient.value.GetStudentNum() == studentNum {
          IndexOfIsFirst(appointmentList, patient, index);
          if waitlist != [] {
            var firstWaitlistPatient := waitlist[0];
            waitlist := waitlist[1..];
            appointmentList := appointmentList[index := Some(firstWaitlistPatient)];
          } else {
            appointmentList := appointmentList[index := None];
          }
          return true;
        }
        index := index + 1;
      }
      return false;
    }

    method CancelWaitlist(studentNum: Int32) returns (cancelled: bool)
      modifies this
      ensures AfterCancellingWaitlist(old(Snapshot()), studentNum) == Transition(Snapshot(), cancelled)
      ensures newPatient == old(newPatient)
    {
      var index := 0;
      while index < |waitlist|
        invariant 0 <= index <= |waitlist|
        invariant Snapshot() == old(Snapshot()) && newPatient == old(newPatient)
        invariant forall j :: 0 <= j < index ==> waitlist[j] != Patient(studentNum)
      {
        var patient := waitlist[index];
        if patient.GetStudentNum() == studentNum {
          IndexOfIsFirst(waitlist, patient, index);
          waitlist := waitlist[..index] + waitlist[index + 1..];
          return true;
        }
        index := index + 1;
      }
      return false;
    }

    method GetAppointmentTime(studentNumber: Int32) returns (time: int)
      ensures time == AppointmentTime(appointmentList, studentNumber)
    {
      time := FirstHour;
      var index := 0;
      while index < |appointmentList|
        invariant 0 <= index <= |appointmentList|
        invariant time == FirstHour + index
        invariant forall j :: 0 <= j < index ==> appointmentList[j] != Some(Patient(studentNumber))
      {
        var patient := appointmentList[index];
        if patient != None && patient.value.GetStudentNum() == studentNumber {
          IndexOfIsFirst(appointmentList, patient, index);
          return;
        }
        time := time + 1;
        index := index + 1;
      }
      return NotFound;
    }

    method GetWaitlistPosition(studentNumber: Int32) returns (pos: int)
      ensures pos == WaitlistPosition(waitlist, studentNumber)
    {
      pos := 1;
      var index := 0;
      while index < |waitlist|
        invariant 0 <= index <= |waitlist|
        invariant pos == index + 1
        invariant forall j :: 0 <= j < index ==> waitlist[j] != Patient(studentNumber)
      {
        var patient := waitlist[index];
        if patient.GetStudentNum() == studentNumber {
          IndexOfIsFirst(waitlist, patient, index);
          return;
        }
        pos := pos + 1;
        index := index + 1;
      }
      return NotFound;
    }

    /** The size of the appointment list, holes included; every appointment time is below 8 plus it. */
    function GetAppointmentListPatientNum(): (n: nat)
      reads this
      ensures n == |appointmentList|
      ensures forall studentNum :: AppointmentTime(appointmentList, studentNum) < FirstHour + n
    {
      |appointmentList|
    }

    /** The size of the waitlist; no waitlist position exceeds it. */
    function GetWaitlistPatientNum(): (n: nat)
      reads this
      ensures n == |waitlist|
      ensures forall studentNum :: WaitlistPosition(waitlist, studentNum) <= n
    {
      |waitlist|
    }

    predicate IsAppointmentListFull()
      reads this
      ensures IsAppointmentListFull() <==>
        |appointmentList| == TotalSize && forall j :: 0 <= j < |appointmentList| ==> appointmentList[j].Some?
    {
      IsFull(appointmentList)
    }

    predicate IsAppointmentListEmpty()
      reads this
      ensures IsAppointmentListEmpty() <==> appointmentList == [] || appointmentList == [None]
    {
      IsEmpty(appointmentList)
    }

    predicate IsWaitlistEmpty()
      reads this
      ensures IsWaitlistEmpty() <==> forall studentNum :: WaitlistPosition(waitlist, studentNum) == NotFound
    {
      assert waitlist != [] ==> WaitlistPosition(waitlist, waitlist[0].studentNum) != NotFound;
      waitlist == []
    }

    function GetHospitalName(): (name: string)
      reads this
      ensures name == Snapshot().hospitalName
    {
      hospitalName
    }

    method ToJson() returns (json: JsonObject)
      ensures json == StateJson(Snapshot())
    {
      var appointments := AppointmentListToJson();
      var waiting := WaitlistToJson();
      json := map[NameKey := JString(hospitalName),
                  AppointmentListKey := appointments,
                  WaitListKey := waiting];
    }

    method AppointmentListToJson() returns (jsonArray: Json)
      ensures jsonArray == JArray(AppointmentListJson(appointmentList))
    {
      var items: seq<Json> := [];
      var index := 0;
      while index < |appointmentList|
        invariant 0 <= index <= |appointmentList|
        invariant |items| == index
        invariant forall k :: 0 <= k < index ==> items[k] == SlotJson(appointmentList[k])
      {
        var patient := appointmentList[index];
        if patient != None {
          items := items + [JObject(patient.value.ToJson())];
        } else {
          items := items + [JNull];
        }
        index := index + 1;
      }
      jsonArray := JArray(items);
    }

    method WaitlistToJson() returns (jsonArray: Json)
      ensures jsonArray == JArray(WaitlistJson(waitlist))
    {
      var items: seq<Json> := [];
      var index := 0;
      while index < |waitlist|
        invariant 0 <= index <= |waitlist|
        invariant |items| == index
        invariant forall k :: 0 <= k < index ==> items[k] == JObject(waitlist[k].ToJson())
      {
        items := items + [JObject(waitlist[index].ToJson())];
        index := index + 1;
      }
      jsonArray := JArray(items);
    }

    /** Used while loading: appends an entry (possibly a hole) with no capacity check. */
    method AddToAppointmentList(patient: Slot)
      modifies this
      ensures Snapshot() == old(Snapshot()).(appointmentList := old(appointmentList) + [patient])
      ensures newPatient == old(newPatient)
    {
      appointmentList := appointmentList + [patient];
    }

    /** Used while loading: appends a patient to the waitlist. */
    method AddToWaitlist(patient: Patient)
      modifies this
      ensures Snapshot() == old(Snapshot()).(waitlist := old(waitlist) + [patient])
      ensures newPatient == old(newPatient)
    {
      waitlist := waitlist + [patient];
    }
  }
}
