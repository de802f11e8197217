/**
 * Reading an appointment system back from the JSON document its toJson
 * writes. The document arrives as an abstract JSON object: reading the file
 * and parsing its text are not part of this model.
 */
module Persistence {
  import opened Wrappers
  import opened Json
  import opened Patients
  import opened Appointments

  /** The keys the reader looks up; written out anew so that the round trip checks they agree with the writer's. */
  const NameField: string := "name"
  const AppointmentListField: string := "appointment list"
  const WaitListField: string := "wait list"
  const StudentNumberField: string := "Student number"

  // ---------------------------------------------------------------------
  // The document as a value

  /** A patient element: it must be a JSON object with an integer "Student number". */
  function ParsePatient(json: Json): Result<Patient, JsonError>
  {
    var patient :- AsObject(json);
    var studentNum :- GetInt(patient, StudentNumberField);
    Success(Patient(studentNum))
  }

  /** An "appointment list" element: null is a hole, anything else must be a patient. */
  function ParseSlot(json: Json): Result<Slot, JsonError>
  {
    if json == JNull then Success(None)
    else
      var p :- ParsePatient(json);
      Success(Some(p))
  }

  /**
   * The "appointment list" array, element by element and in order, with no
   * capacity check; the first element that fails decides the error.
   */
  function ParseSlots(items: seq<Json>): Result<seq<Slot>, JsonError>
  {
    if items == [] then Success([])
    else
      var first :- ParseSlot(items[0]);
      var rest :- ParseSlots(items[1..]);
      Success([first] + rest)
  }

  /** The "wait list" array: every element must be a patient; order is kept. */
  function ParseWaitlist(items: seq<Json>): Result<seq<Patient>, JsonError>
  {
    if items == [] then Success([])
    else
      var first :- ParsePatient(items[0]);
      var rest :- ParseWaitlist(items[1..]);
      Success([first] + rest)
  }

  /** What addPatientsToAppointmentList adds, or the error it stops with. */
  function AppointmentListOf(doc: JsonObject): Result<seq<Slot>, JsonError>
  {
    var items :- GetJsonArray(doc, AppointmentListField);
    ParseSlots(items)
  }

  /** What addPatientsToWaitList adds, or the error it stops with. */
  function WaitlistOf(doc: JsonObject): Result<seq<Patient>, JsonError>
  {
    var items :- GetJsonArray(doc, WaitListField);
    ParseWaitlist(items)
  }

  /** parseAppointmentSystem: the name first, then the appointment list, then the waitlist. */
  function ParseDocument(doc: JsonObject): (r: Result<State, JsonError>)
    ensures r.Success? <==>
      GetString(doc, NameField).Success? && AppointmentListOf(doc).Success? && WaitlistOf(doc).Success?
    ensures GetString(doc, NameField).Failure? ==> r == Failure(GetString(doc, NameField).error)
    ensures GetString(doc, NameField).Success? && AppointmentListOf(doc).Failure? ==>
      r == Failure(AppointmentListOf(doc).error)
  {
    var name :- GetString(doc, NameField);
    var appointments :- AppointmentListOf(doc);
    var waiting :- WaitlistOf(doc);
    Success(State(name, appointments, waiting))
  }

  // ---------------------------------------------------------------------
  // The reader's methods

  /** parseAppointmentSystem: a fresh system built from the document; on an error no system is returned. */
  method ParseAppointmentSystem(doc: JsonObject) returns (r: Result<AppointmentSystem, JsonError>)
    ensures r.Success? <==> ParseDocument(doc).Success?
    ensures r.Failure? ==> ParseDocument(doc) == Failure(r.error)
    ensures r.Success? ==> fresh(r.value) && r.value.newPatient == None
    ensures r.Success? ==> r.value.Snapshot() == ParseDocument(doc).value
  {
    var name :- GetString(doc, NameField);
    var appointmentSystem := new AppointmentSystem(name);
    var error := AddPatientsToAppointmentList(appointmentSystem, doc);
    if error.Some? {
      return Failure(error.value);
    }
    error := AddPatientsToWaitList(appointmentSystem, doc);
    if error.Some? {
      return Failure(error.value);
    }
    return Success(appointmentSystem);
  }

  /** addPatientsToAppointmentList: appends every parsed element, or reports the error that stops it. */
  method AddPatientsToAppointmentList(appointmentSystem: AppointmentSystem, doc: JsonObject)
    returns (error: Option<JsonError>)
    modifies appointmentSystem
    ensures error.None? <==> AppointmentListOf(doc).Success?
    ensures error.Some? ==> AppointmentListOf(doc) == Failure(error.value)
    ensures error.None? ==>
      appointmentSystem.appointmentList == old(appointmentSystem.appointmentList) + AppointmentListOf(doc).value
    ensures appointmentSystem.hospitalName == old(appointmentSystem.hospitalName)
    ensures appointmentSystem.waitlist == old(appointmentSystem.waitlist)
    ensures appointmentSystem.newPatient == old(appointmentSystem.newPatient)
  {
    var jsonArray := GetJsonArray(doc, AppointmentListField);
    if jsonArray.Failure? {
      return Some(jsonArray.error);
    }
    var items := jsonArray.value;
    ghost var added: seq<Slot> := [];
    var index := 0;
    assert items[index..] == items;
    PrependNothing(ParseSlots(items));
    while index < |items|
      invariant 0 <= index <= |items|
      invariant ParseSlots(items) == Prepend(added, ParseSlots(items[index..]))
      invariant appointmentSystem.appointmentList == old(appointmentSystem.appointmentList) + added
      invariant appointmentSystem.hospitalName == old(appointmentSystem.hospitalName)
      invariant appointmentSystem.waitlist == old(appointmentSystem.waitlist)
      invariant appointmentSystem.newPatient == old(appointmentSystem.newPatient)
    {
      var json := items[index];
      var slot: Slot;
      if json == JNull {
        slot := None;
      } else {
        var patient := AsObject(json);
        if patient.Failure? {
          ParseSlotsStep(items, index);
          return Some(patient.error);
        }
        var studentNum := GetInt(patient.value, StudentNumberField);
        if studentNum.Failure? {
          ParseSlotsStep(items, index);
          return Some(studentNum.error);
        }
        slot := Some(Patient(studentNum.value));
      }
      assert ParseSlot(json) == Success(slot);
      ParseSlotsStep(items, index);
      PrependTwice(added, slot, ParseSlots(items[index + 1..]));
      appointmentSystem.AddToAppointmentList(slot);
      added := added + [slot];
      index := index + 1;
    }
    return None;
  }

  /** One element of the loop in addPatientsToAppointmentList. */
  lemma ParseSlotsStep(items: seq<Json>, index: int)
    requires 0 <= index < |items|
    ensures ParseSlots(items[index..])
         == match ParseSlot(items[index])
            case Failure(e) => Failure(e)
            case Success(slot) => Prepend([slot], ParseSlots(items[index + 1..]))
  {
    assert items[index..][1..] == items[index + 1..];
  }

  /** addPatientsToWaitList: appends every parsed patient, or reports the error that stops it. */
  method AddPatientsToWaitList(appointmentSystem: AppointmentSystem, doc: JsonObject)
    returns (error: Option<JsonError>)
    modifies appointmentSystem
    ensures error.None? <==> WaitlistOf(doc).Success?
    ensures error.Some? ==> WaitlistOf(doc) == Failure(error.value)
    ensures error.None? ==> appointmentSystem.waitlist == old(appointmentSystem.waitlist) + WaitlistOf(doc).value
    ensures appointmentSystem.hospitalName == old(appointmentSystem.hospitalName)
    ensures appointmentSystem.appointmentList == old(appointmentSystem.appointmentList)
    ensures appointmentSystem.newPatient == old(appointmentSystem.newPatient)
  {
    var jsonArray := GetJsonArray(doc, WaitListField);
    if jsonArray.Failure? {
      return Some(jsonArray.error);
    }
    var items := jsonArray.value;
    ghost var added: seq<Patient> := [];
    var index := 0;
    assert items[index..] == items;
    PrependNothing(ParseWaitlist(items));
    while index < |items|
      invariant 0 <= index <= |items|
      invariant ParseWaitlist(items) == Prepend(added, ParseWaitlist(items[index..]))
      invariant appointmentSystem.waitlist == old(appointmentSystem.waitlist) + added
      invariant appointmentSystem.hospitalName == old(appointmentSystem.hospitalName)
      invariant appointmentSystem.appointmentList == old(appointmentSystem.appointmentList)
      invariant appointmentSystem.newPatient == old(appointmentSystem.newPatient)
    {
      ParseWaitlistStep(items, index);
      var patient := AsObject(items[index]);
      if patient.Failure? {
        return Some(patient.error);
      }
      var studentNum := GetInt(patient.value, StudentNumberField);
      if studentNum.Failure? {
        return Some(studentNum.error);
      }
      var p := Patient(studentNum.value);
      PrependTwice(added, p, ParseWaitlist(items[index + 1..]));
      appointmentSystem.AddToWaitlist(p);
      added := added + [p];
      index := index + 1;
    }
    return None;
  }

  /** One element of the loop in addPatientsToWaitList. */
  lemma ParseWaitlistStep(items: seq<Json>, index: int)
    requires 0 <= index < |items|
    ensures ParseWaitlist(items[index..])
         == match ParsePatient(items[index])
            case Failure(e) => Failure(e)
            case Success(p) => Prepend([p], ParseWaitlist(items[index + 1..]))
  {
    assert items[index..][1..] == items[index + 1..];
  }

  /** The elements already added in front of what parsing the rest gives. */
  ghost function Prepend<T>(done: seq<T>, rest: Result<seq<T>, JsonError>): Result<seq<T>, JsonError>
  {
    match rest
    case Success(more) => Success(done + more)
    case Failure(e) => Failure(e)
  }

  lemma PrependNothing<T>(rest: Result<seq<T>, JsonError>)
    ensures Prepend([], rest) == rest
  {
    if rest.Success? {
      assert [] + rest.value == rest.value;
    }
  }

  lemma PrependTwice<T>(done: seq<T>, x: T, rest: Result<seq<T>, JsonError>)
    ensures Prepend(done, Prepend([x], rest)) == Prepend(done + [x], rest)
  {
    if rest.Success? {
      assert done + ([x] + rest.value) == (done + [x]) + rest.value;
    }
  }

  // ---------------------------------------------------------------------
  // What loading promises

  /**
   * The appointment list is read element by element: it is read when every
   * element is, the result has one slot per element in the same order, and a
   * failure carries the error of the first element that fails.
   */
  lemma {:induction false} ParseSlotsElementwise(items: seq<Json>)
    ensures ParseSlots(items).Success? <==> forall k :: 0 <= k < |items| ==> ParseSlot(items[k]).Success?
    ensures ParseSlots(items).Success? ==>
      && |ParseSlots(items).value| == |items|
      && forall k :: 0 <= k < |items| ==> ParseSlot(items[k]) == Success(ParseSlots(items).value[k])
    ensures ParseSlots(items).Failure? ==>
      exists k :: 0 <= k < |items| && ParseSlot(items[k]) == Failure(ParseSlots(items).error)
        && forall j :: 0 <= j < k ==> ParseSlot(items[j]).Success?
  {
    if items != [] {
      var tail := items[1..];
      ParseSlotsElementwise(tail);
      assert forall k :: 1 <= k < |items| ==> items[k] == tail[k - 1];
      if ParseSlot(items[0]).Success? && ParseSlots(tail).Failure? {
        var k :| 0 <= k < |tail| && ParseSlot(tail[k]) == Failure(ParseSlots(tail).error)
          && forall j :: 0 <= j < k ==> ParseSlot(tail[j]).Success?;
        assert ParseSlot(items[k + 1]) == Failure(ParseSlots(items).error);
        assert forall j :: 0 <= j < k + 1 ==> ParseSlot(items[j]).Success?;
      }
    }
  }

  /** The waitlist is read element by element, in the same way. */
  lemma {:induction false} ParseWaitlistElementwise(items: seq<Json>)
    ensures ParseWaitlist(items).Success? <==> forall k :: 0 <= k < |items| ==> ParsePatient(items[k]).Success?
    ensures ParseWaitlist(items).Success? ==>
      && |ParseWaitlist(items).value| == |items|
      && forall k :: 0 <= k < |items| ==> ParsePatient(items[k]) == Success(ParseWaitlist(items).value[k])
    ensures ParseWaitlist(items).Failure? ==>
      exists k :: 0 <= k < |items| && ParsePatient(items[k]) == Failure(ParseWaitlist(items).error)
        && forall j :: 0 <= j < k ==> ParsePatient(items[j]).Success?
  {
    if items != [] {
      var tail := items[1..];
      ParseWaitlistElementwise(tail);
      assert forall k :: 1 <= k < |items| ==> items[k] == tail[k - 1];
      if ParsePatient(items[0]).Success? && ParseWaitlist(tail).Failure? {
        var k :| 0 <= k < |tail| && ParsePatient(tail[k]) == Failure(ParseWaitlist(tail).error)
          && forall j :: 0 <= j < k ==> ParsePatient(tail[j]).Success?;
        assert ParsePatient(items[k + 1]) == Failure(ParseWaitlist(items).error);
        assert forall j :: 0 <= j < k + 1 ==> ParsePatient(items[j]).Success?;
      }
    }
  }

  /** A patient's JSON object reads back as the same patient. */
  lemma PatientRoundTrip(p: Patient)
    ensures ParsePatient(JObject(p.ToJson())) == Success(p)
  {
  }

  /** Every slot, hole or patient, reads back as itself. */
  lemma SlotRoundTrip(slot: Slot)
    ensures ParseSlot(SlotJson(slot)) == Success(slot)
  {
    if slot.Some? {
      PatientRoundTrip(slot.value);
    }
  }

  /** The appointment list, holes and order included, reads back unchanged, whatever its length. */
  lemma AppointmentListRoundTrip(list: seq<Slot>)
    ensures ParseSlots(AppointmentListJson(list)) == Success(list)
  {
    var items := AppointmentListJson(list);
    ParseSlotsElementwise(items);
    forall k | 0 <= k < |items|
      ensures ParseSlot(items[k]) == Success(list[k])
    {
      SlotRoundTrip(list[k]);
    }
    assert ParseSlots(items).Success?;
    var parsed := ParseSlots(items).value;
    assert forall k :: 0 <= k < |list| ==> parsed[k] == list[k];
    assert parsed == list;
  }

  /** The waitlist reads back in the same order. */
  lemma WaitlistRoundTrip(waitlist: seq<Patient>)
    ensures ParseWaitlist(WaitlistJson(waitlist)) == Success(waitlist)
  {
    var items := WaitlistJson(waitlist);
    ParseWaitlistElementwise(items);
    forall k | 0 <= k < |items|
      ensures ParsePatient(items[k]) == Success(waitlist[k])
    {
      PatientRoundTrip(waitlist[k]);
    }
    assert ParseWaitlist(items).Success?;
    var parsed := ParseWaitlist(items).value;
    assert forall k :: 0 <= k < |waitlist| ==> parsed[k] == waitlist[k];
    assert parsed == waitlist;
  }

  /** Saving then loading gives back the same name, appointment list and waitlist. */
  lemma SaveLoadRoundTrip(s: State)
    ensures ParseDocument(StateJson(s)) == Success(s)
  {
    AppointmentListRoundTrip(s.appointmentList);
    WaitlistRoundTrip(s.waitlist);
  }

  /** An exported new system loads back with both lists empty. */
  lemma EmptySystemRoundTrip(hospitalName: string)
    ensures ParseDocument(StateJson(State(hospitalName, [], []))) == Success(State(hospitalName, [], []))
  {
    SaveLoadRoundTrip(State(hospitalName, [], []));
  }

  /** A slot or waitlist element that loaded as a patient: an object whose "Student number" narrows to that patient's number. */
  predicate HoldsPatient(json: Json, p: Patient)
  {
    && json.JObject?
    && StudentNumberField in json.fields
    && json.fields[StudentNumberField].JInt?
    && IntValue(json.fields[StudentNumberField].n) == p.studentNum
  }

  /**
   * What a successful load holds: the document's name, and its two arrays
   * parsed element by element, with holes exactly where the nulls were and
   * every other element an object whose "Student number", narrowed to an
   * int, is the loaded patient's number.
   */
  lemma LoadedContents(doc: JsonObject)
    requires ParseDocument(doc).Success?
    ensures var s := ParseDocument(doc).value;
      && NameField in doc && doc[NameField] == JString(s.hospitalName)
      && AppointmentListField in doc && doc[AppointmentListField].JArray?
      && WaitListField in doc && doc[WaitListField].JArray?
      && |s.appointmentList| == |doc[AppointmentListField].items|
      && |s.waitlist| == |doc[WaitListField].items|
      && (forall k :: 0 <= k < |s.appointmentList| ==>
            (s.appointmentList[k] == None <==> doc[AppointmentListField].items[k] == JNull))
      && (forall k :: 0 <= k < |s.appointmentList| && s.appointmentList[k].Some? ==>
            HoldsPatient(doc[AppointmentListField].items[k], s.appointmentList[k].value))
      && (forall k :: 0 <= k < |s.waitlist| ==> HoldsPatient(doc[WaitListField].items[k], s.waitlist[k]))
  {
    var s := ParseDocument(doc).value;
    var items := doc[AppointmentListField].items;
    ParseSlotsElementwise(items);
    forall k | 0 <= k < |s.appointmentList|
      ensures s.appointmentList[k] == None <==> items[k] == JNull
      ensures s.appointmentList[k].Some? ==> HoldsPatient(items[k], s.appointmentList[k].value)
    {
      assert ParseSlot(items[k]) == Success(s.appointmentList[k]);
    }
    var waiting := doc[WaitListField].items;
    ParseWaitlistElementwise(waiting);
    forall k | 0 <= k < |s.waitlist|
      ensures HoldsPatient(waiting[k], s.waitlist[k])
    {
      assert ParsePatient(waiting[k]) == Success(s.waitlist[k]);
    }
  }

  /** A "Student number" outside Java's int range loads as its low 32 bits: 2^32 + 1 loads as patient 1. */
  lemma OutOfRangeStudentNumberWraps()
    ensures ParsePatient(JObject(map[StudentNumberField := JInt(0x1_0000_0001)])) == Success(Patient(1))
    ensures ParsePatient(JObject(map[StudentNumberField := JInt(0x8000_0000)])) == Success(Patient(-0x8000_0000))
  {
  }

  /** Loading fails, and no system is built, when an element of "wait list" is null. */
  lemma NullWaitlistEntryIsRejected(doc: JsonObject)
    requires GetJsonArray(doc, WaitListField).Success?
    requires JNull in GetJsonArray(doc, WaitListField).value
    ensures ParseDocument(doc).Failure?
  {
    var items := GetJsonArray(doc, WaitListField).value;
    var k :| 0 <= k < |items| && items[k] == JNull;
    ParseWaitlistElementwise(items);
    assert ParsePatient(items[k]).Failure?;
  }
}
