/**
 * What the operations of the appointment system promise, proved about the
 * functions that the methods of AppointmentSystem are shown to follow.
 */
module AppointmentLemmas {
  import opened Wrappers
  import opened Json
  import opened Patients
  import opened Appointments

  // ---------------------------------------------------------------------
  // Booking

  /** A booking into a list that is not full takes the lowest hole, and the patient's time is that slot's hour. */
  lemma BookFillsLowestHole(s: State, studentNum: Int32, i: int)
    requires !IsFull(s.appointmentList)
    requires 0 <= i < |s.appointmentList| && s.appointmentList[i] == None
    requires forall j :: 0 <= j < i ==> s.appointmentList[j] != None
    ensures AfterBooking(s, studentNum)
         == Transition(s.(appointmentList := s.appointmentList[i := Some(Patient(studentNum))]), false)
    ensures Some(Patient(studentNum)) !in s.appointmentList ==>
      AppointmentTime(AfterBooking(s, studentNum).after.appointmentList, studentNum) == FirstHour + i
  {
    IndexOfIsFirst(s.appointmentList, None, i);
    var list' := s.appointmentList[i := Some(Patient(studentNum))];
    if Some(Patient(studentNum)) !in s.appointmentList {
      IndexOfIsFirst(list', Some(Patient(studentNum)), i);
    }
  }

  /** Without a hole and below capacity, a booking appends; the time is the hour after the last slot. */
  lemma BookAppendsWithoutHole(s: State, studentNum: Int32)
    requires None !in s.appointmentList && |s.appointmentList| != TotalSize
    ensures AfterBooking(s, studentNum)
         == Transition(s.(appointmentList := s.appointmentList + [Some(Patient(studentNum))]), false)
    ensures Some(Patient(studentNum)) !in s.appointmentList ==>
      AppointmentTime(AfterBooking(s, studentNum).after.appointmentList, studentNum)
        == FirstHour + |s.appointmentList|
  {
    var list' := s.appointmentList + [Some(Patient(studentNum))];
    if Some(Patient(studentNum)) !in s.appointmentList {
      IndexOfIsFirst(list', Some(Patient(studentNum)), |s.appointmentList|);
    }
  }

  /**
   * Booking into a full list appends to the waitlist, returns true and keeps
   * the appointment list; a newcomer's position is the new waitlist length.
   */
  lemma BookWaitlistsWhenFull(s: State, studentNum: Int32)
    requires IsFull(s.appointmentList)
    ensures AfterBooking(s, studentNum)
         == Transition(s.(waitlist := s.waitlist + [Patient(studentNum)]), true)
    ensures Patient(studentNum) !in s.waitlist ==>
      WaitlistPosition(AfterBooking(s, studentNum).after.waitlist, studentNum) == |s.waitlist| + 1
  {
    var waitlist' := s.waitlist + [Patient(studentNum)];
    if Patient(studentNum) !in s.waitlist {
      IndexOfIsFirst(waitlist', Patient(studentNum), |s.waitlist|);
    }
  }

  // ---------------------------------------------------------------------
  // Cancelling an appointment

  /**
   * Cancelling the first slot i holding a student number while somebody waits
   * puts the waitlist head at i (its time becomes i's hour) and drops the head.
   */
  lemma CancelPromotesWaitlistHead(s: State, studentNum: Int32, i: int)
    requires 0 <= i < |s.appointmentList| && s.appointmentList[i] == Some(Patient(studentNum))
    requires forall j :: 0 <= j < i ==> s.appointmentList[j] != Some(Patient(studentNum))
    requires s.waitlist != []
    ensures AfterCancelling(s, studentNum)
         == Transition(s.(appointmentList := s.appointmentList[i := Some(s.waitlist[0])],
                          waitlist := s.waitlist[1..]), true)
    ensures Some(s.waitlist[0]) !in s.appointmentList ==>
      AppointmentTime(AfterCancelling(s, studentNum).after.appointmentList, s.waitlist[0].studentNum)
        == FirstHour + i
  {
    IndexOfIsFirst(s.appointmentList, Some(Patient(studentNum)), i);
    var head := s.waitlist[0];
    if Some(head) !in s.appointmentList {
      var list' := s.appointmentList[i := Some(head)];
      assert Patient(head.studentNum) == head;
      IndexOfIsFirst(list', Some(Patient(head.studentNum)), i);
    }
  }

  /** After a promotion, every other patient on the waitlist moves up one position. */
  lemma PromotionMovesWaitlistUp(s: State, studentNum: Int32, other: Int32)
    requires Some(Patient(studentNum)) in s.appointmentList && s.waitlist != []
    requires Patient(other) in s.waitlist && s.waitlist[0] != Patient(other)
    ensures WaitlistPosition(AfterCancelling(s, studentNum).after.waitlist, other)
         == WaitlistPosition(s.waitlist, other) - 1
  {
    var w := s.waitlist;
    var j := IndexOf(w, Patient(other));
    assert w[1..][j - 1] == w[j];
    IndexOfIsFirst(w[1..], Patient(other), j - 1);
  }

  /** With nobody waiting, cancelling the first slot i holding a student number leaves a hole at i. */
  lemma CancelLeavesHole(s: State, studentNum: Int32, i: int)
    requires 0 <= i < |s.appointmentList| && s.appointmentList[i] == Some(Patient(studentNum))
    requires forall j :: 0 <= j < i ==> s.appointmentList[j] != Some(Patient(studentNum))
    requires s.waitlist == []
    ensures AfterCancelling(s, studentNum)
         == Transition(s.(appointmentList := s.appointmentList[i := None]), true)
  {
    IndexOfIsFirst(s.appointmentList, Some(Patient(studentNum)), i);
  }

  /**
   * Cancelling twice: when at most one slot holds the student number and it is
   * not the waitlist head (who would be promoted into the slot), the second
   * cancellation fails.
   */
  lemma CancelTwiceFails(s: State, studentNum: Int32)
    requires forall j, k :: 0 <= j < k < |s.appointmentList| && s.appointmentList[j] == Some(Patient(studentNum))
               ==> s.appointmentList[k] != Some(Patient(studentNum))
    requires s.waitlist == [] || s.waitlist[0] != Patient(studentNum)
    ensures !AfterCancelling(AfterCancelling(s, studentNum).after, studentNum).returned
  {
    var list := s.appointmentList;
    var i := IndexOf(list, Some(Patient(studentNum)));
    if i != NotFound {
      var list' := AfterCancelling(s, studentNum).after.appointmentList;
      forall j | 0 <= j < |list'|
        ensures list'[j] != Some(Patient(studentNum))
      {
        if j > i {
          assert list[i] == Some(Patient(studentNum));
        }
      }
    }
  }

  /**
   * Cancelling and immediately rebooking with nobody waiting puts the new
   * patient in the freed slot when no earlier hole exists.
   */
  lemma CancelThenBookReusesSlot(s: State, studentNum: Int32, newcomer: Int32, i: int)
    requires 0 <= i < |s.appointmentList| && s.appointmentList[i] == Some(Patient(studentNum))
    requires forall j :: 0 <= j < i ==> s.appointmentList[j] != Some(Patient(studentNum))
    requires forall j :: 0 <= j < i ==> s.appointmentList[j] != None
    requires s.waitlist == []
    ensures AfterBooking(AfterCancelling(s, studentNum).after, newcomer).after
         == s.(appointmentList := s.appointmentList[i := Some(Patient(newcomer))])
  {
    CancelLeavesHole(s, studentNum, i);
    var s' := AfterCancelling(s, studentNum).after;
    assert s'.appointmentList[i] == None;
    BookFillsLowestHole(s', newcomer, i);
  }

  // ---------------------------------------------------------------------
  // Cancelling a waitlist entry

  /** cancelWaitlist drops the first entry i with the student number and keeps the others in order. */
  lemma CancelWaitlistRemovesFirstMatch(s: State, studentNum: Int32, i: int)
    requires 0 <= i < |s.waitlist| && s.waitlist[i] == Patient(studentNum)
    requires forall j :: 0 <= j < i ==> s.waitlist[j] != Patient(studentNum)
    ensures AfterCancellingWaitlist(s, studentNum).returned
    ensures AfterCancellingWaitlist(s, studentNum).after
         == s.(waitlist := s.waitlist[..i] + s.waitlist[i + 1..])
    ensures var w' := AfterCancellingWaitlist(s, studentNum).after.waitlist;
      && |w'| == |s.waitlist| - 1
      && (forall j :: 0 <= j < i ==> w'[j] == s.waitlist[j])
      && (forall j :: i <= j < |w'| ==> w'[j] == s.waitlist[j + 1])
  {
    IndexOfIsFirst(s.waitlist, Patient(studentNum), i);
  }

  /** Removing an entry other than x, giving rest, shifts the first index of x down by one when x came later. */
  lemma IndexOfAfterRemoval<T>(w: seq<T>, i: int, x: T, rest: seq<T>)
    requires 0 <= i < |w| && w[i] != x && x in w
    requires rest == w[..i] + w[i + 1..]
    ensures IndexOf(rest, x) == if IndexOf(w, x) < i then IndexOf(w, x) else IndexOf(w, x) - 1
  {
    var j := IndexOf(w, x);
    assert |rest| == |w| - 1;
    assert forall k :: 0 <= k < i ==> rest[k] == w[k];
    assert forall k :: i <= k < |rest| ==> rest[k] == w[k + 1];
    if j < i {
      IndexOfIsFirst(rest, x, j);
    } else {
      IndexOfIsFirst(rest, x, j - 1);
    }
  }

  /** After cancelWaitlist, entries before the removed one keep their position and later ones move up by one. */
  lemma CancelWaitlistMovesLaterUp(s: State, studentNum: Int32, other: Int32)
    requires Patient(studentNum) in s.waitlist && Patient(other) in s.waitlist && other != studentNum
    ensures WaitlistPosition(AfterCancellingWaitlist(s, studentNum).after.waitlist, other)
         == if WaitlistPosition(s.waitlist, other) < WaitlistPosition(s.waitlist, studentNum)
            then WaitlistPosition(s.waitlist, other)
            else WaitlistPosition(s.waitlist, other) - 1
  {
    var w := s.waitlist;
    var i := IndexOf(w, Patient(studentNum));
    var rest := w[..i] + w[i + 1..];
    assert AfterCancellingWaitlist(s, studentNum).after.waitlist == rest;
    IndexOfAfterRemoval(w, i, Patient(other), rest);
  }

  // ---------------------------------------------------------------------
  // Predicates

  /**
   * The boundary of isAppointmentListEmpty: a single hole counts as empty,
   * two holes do not, although nobody is booked in either.
   */
  lemma EmptyBoundary()
    ensures IsEmpty([None])
    ensures !IsEmpty([None, None])
  {
    var twoHoles: seq<Slot> := [None, None];
    assert twoHoles != [] && twoHoles != [None] by {
      assert |twoHoles| == 2;
    }
  }

  // ---------------------------------------------------------------------
  // Every state reachable by the operations

  /**
   * A booking or cancellation request against the appointment system. The
   * loading-only appends addToAppointmentList and addToWaitlist are not
   * requests: they can take the list past nine entries.
   */
  datatype Request =
    | Book(studentNum: Int32)
    | Cancel(studentNum: Int32)
    | CancelWaiting(studentNum: Int32)

  function Apply(s: State, r: Request): State
  {
    match r
    case Book(n) => AfterBooking(s, n).after
    case Cancel(n) => AfterCancelling(s, n).after
    case CancelWaiting(n) => AfterCancellingWaitlist(s, n).after
  }

  function Run(s: State, rs: seq<Request>): State
    decreases |rs|
  {
    if rs == [] then s else Run(Apply(s, rs[0]), rs[1..])
  }

  /** At most nine slots, and somebody waits only while every slot is taken. */
  ghost predicate Consistent(s: State)
  {
    && |s.appointmentList| <= TotalSize
    && (s.waitlist != [] ==> IsFull(s.appointmentList))
  }

  /** Each operation keeps a state consistent, keeps its name and never shortens its list. */
  lemma ApplyPreserves(s: State, r: Request)
    requires Consistent(s)
    ensures Consistent(Apply(s, r))
    ensures Apply(s, r).hospitalName == s.hospitalName
    ensures |s.appointmentList| <= |Apply(s, r).appointmentList|
  {
    match r
    case Book(n) =>
    case Cancel(n) =>
      var i := IndexOf(s.appointmentList, Some(Patient(n)));
      if i != NotFound && s.waitlist != [] {
        var list' := s.appointmentList[i := Some(s.waitlist[0])];
        assert forall j :: 0 <= j < |list'| ==> list'[j] != None;
      }
    case CancelWaiting(n) =>
  }

  lemma {:induction false} RunPreserves(s: State, rs: seq<Request>)
    requires Consistent(s)
    ensures Consistent(Run(s, rs))
    ensures Run(s, rs).hospitalName == s.hospitalName
    ensures |s.appointmentList| <= |Run(s, rs).appointmentList|
    decreases |rs|
  {
    if rs != [] {
      ApplyPreserves(s, rs[0]);
      RunPreserves(Apply(s, rs[0]), rs[1..]);
    }
  }

  /** Starting from a new appointment system, any sequence of bookings and cancellations keeps it consistent. */
  lemma NewSystemStaysConsistent(hospitalName: string, rs: seq<Request>)
    ensures var s := Run(State(hospitalName, [], []), rs);
      && |s.appointmentList| <= TotalSize
      && (s.waitlist != [] ==> IsFull(s.appointmentList))
      && s.hospitalName == hospitalName
  {
    RunPreserves(State(hospitalName, [], []), rs);
  }

  // ---------------------------------------------------------------------
  // Days of bookings

  /** One booking request per student number, in order. */
  function Bookings(studentNums: seq<Int32>): seq<Request>
  {
    seq(|studentNums|, k requires 0 <= k < |studentNums| => Book(studentNums[k]))
  }

  /** The slots those bookings take, in order. */
  function BookedSlots(studentNums: seq<Int32>): seq<Slot>
  {
    seq(|studentNums|, k requires 0 <= k < |studentNums| => Some(Patient(studentNums[k])))
  }

  /** Bookings into a list without holes and with room for all of them are appended in order. */
  lemma {:induction false} BookingsAppendInOrder(s: State, studentNums: seq<Int32>)
    requires None !in s.appointmentList
    requires |s.appointmentList| + |studentNums| <= TotalSize
    ensures Run(s, Bookings(studentNums)) == s.(appointmentList := s.appointmentList + BookedSlots(studentNums))
    decreases |studentNums|
  {
    if studentNums == [] {
      assert s.appointmentList + BookedSlots(studentNums) == s.appointmentList;
    } else {
      var first := studentNums[0];
      var rest := studentNums[1..];
      BookAppendsWithoutHole(s, first);
      var s' := s.(appointmentList := s.appointmentList + [Some(Patient(first))]);
      assert Apply(s, Book(first)) == s';
      assert Bookings(studentNums)[1..] == Bookings(rest);
      BookingsAppendInOrder(s', rest);
      assert s'.appointmentList + BookedSlots(rest) == s.appointmentList + BookedSlots(studentNums);
    }
  }

  /**
   * Nine bookings of distinct student numbers into a new system fill it:
   * nine entries, nobody waiting, the list full, and the k-th booking's time
   * is hour 8 + k.
   */
  lemma NineBookingsFillTheDay(hospitalName: string, studentNums: seq<Int32>)
    requires |studentNums| == TotalSize
    requires forall j, k :: 0 <= j < k < |studentNums| ==> studentNums[j] != studentNums[k]
    ensures var s := Run(State(hospitalName, [], []), Bookings(studentNums));
      && |s.appointmentList| == TotalSize
      && s.waitlist == []
      && IsFull(s.appointmentList)
      && forall k :: 0 <= k < TotalSize ==> AppointmentTime(s.appointmentList, studentNums[k]) == FirstHour + k
  {
    BookingsAppendInOrder(State(hospitalName, [], []), studentNums);
    var list := BookedSlots(studentNums);
    assert [] + list == list;
    forall k | 0 <= k < TotalSize
      ensures AppointmentTime(list, studentNums[k]) == FirstHour + k
    {
      IndexOfIsFirst(list, Some(Patient(studentNums[k])), k);
    }
  }

  /**
   * Promotion followed by a cancellation, on any full day without a
   * waitlist: a new student number waits at position 1; cancelling the first booking of a
   * booked patient promotes the waiting patient to that slot's time and
   * empties the waitlist; cancelling the promoted patient then leaves a
   * hole, so the list keeps its length but is no longer full.
   */
  lemma PromotionAndCancellation(day: State, booked: Int32, waiting: Int32, i: int)
    requires IsFull(day.appointmentList) && day.waitlist == []
    requires 0 <= i < |day.appointmentList| && day.appointmentList[i] == Some(Patient(booked))
    requires forall j :: 0 <= j < i ==> day.appointmentList[j] != Some(Patient(booked))
    requires Some(Patient(waiting)) !in day.appointmentList
    ensures AfterBooking(day, waiting).returned
    ensures WaitlistPosition(AfterBooking(day, waiting).after.waitlist, waiting) == 1
    ensures AfterCancelling(AfterBooking(day, waiting).after, booked).returned
    ensures AfterCancelling(AfterBooking(day, waiting).after, booked).after.waitlist == []
    ensures AppointmentTime(AfterCancelling(AfterBooking(day, waiting).after, booked).after.appointmentList,
                            waiting) == FirstHour + i
    ensures var cancelled := AfterCancelling(AfterCancelling(AfterBooking(day, waiting).after, booked).after, waiting);
      && cancelled.returned
      && |cancelled.after.appointmentList| == TotalSize
      && !IsFull(cancelled.after.appointmentList)
      && AppointmentTime(cancelled.after.appointmentList, waiting) == NotFound
  {
    BookWaitlistsWhenFull(day, waiting);
    var queued := day.(waitlist := [Patient(waiting)]);
    assert AfterBooking(day, waiting).after == queued;

    CancelPromotesWaitlistHead(queued, booked, i);
    var promotedList := day.appointmentList[i := Some(Patient(waiting))];
    var promoted := day.(appointmentList := promotedList);
    assert AfterCancelling(queued, booked).after == promoted;

    assert forall j :: 0 <= j < i ==> promotedList[j] != Some(Patient(waiting));
    CancelLeavesHole(promoted, waiting, i);
    var cancelledList := promotedList[i := None];
    assert AfterCancelling(promoted, waiting).after == day.(appointmentList := cancelledList);
    assert cancelledList[i] == None;
    assert Some(Patient(waiting)) !in cancelledList by {
      forall j | 0 <= j < |cancelledList|
        ensures cancelledList[j] != Some(Patient(waiting))
      {
        if j != i { assert cancelledList[j] == day.appointmentList[j]; }
      }
    }
  }

  /** The student numbers AppointmentSystemTest books in order: 11111111, 22222222, ..., 99999999. */
  function RepeatedDigitNumbers(): (nums: seq<Int32>)
    ensures |nums| == TotalSize
    ensures forall k :: 0 <= k < TotalSize ==> nums[k] as int == (k + 1) * 11111111
  {
    seq(TotalSize, k requires 0 <= k < TotalSize => ((k + 1) * 11111111) as Int32)
  }

  /** The full day of AppointmentSystemTest, with the k-th number in slot k and nobody waiting. */
  function TestDay(hospitalName: string): State
  {
    State(hospitalName, BookedSlots(RepeatedDigitNumbers()), [])
  }

  /**
   * testBookAppointmentUntilFull: booking 11111111 to 99999999 into a new
   * system gives nine appointments, in order, and an empty waitlist.
   */
  lemma BookingUntilFull(hospitalName: string)
    ensures Run(State(hospitalName, [], []), Bookings(RepeatedDigitNumbers())) == TestDay(hospitalName)
    ensures |TestDay(hospitalName).appointmentList| == 9 && |TestDay(hospitalName).waitlist| == 0
    ensures IsFull(TestDay(hospitalName).appointmentList)
  {
    var nums := RepeatedDigitNumbers();
    BookingsAppendInOrder(State(hospitalName, [], []), nums);
    assert [] + BookedSlots(nums) == BookedSlots(nums);
  }

  /** On a full day with nobody waiting, two new distinct student numbers are waitlisted at positions 1 and 2. */
  lemma TwoNewcomersWaitInOrder(day: State, first: Int32, second: Int32)
    requires IsFull(day.appointmentList) && day.waitlist == [] && first != second
    ensures var one := AfterBooking(day, first);
      var two := AfterBooking(one.after, second);
      && one.returned && two.returned
      && two.after == day.(waitlist := [Patient(first), Patient(second)])
      && WaitlistPosition(two.after.waitlist, first) == 1
      && WaitlistPosition(two.after.waitlist, second) == 2
  {
    BookWaitlistsWhenFull(day, first);
    var one := day.(waitlist := [Patient(first)]);
    BookWaitlistsWhenFull(one, second);
    var two := day.(waitlist := [Patient(first), Patient(second)]);
    assert AfterBooking(one, second).after == two;
    IndexOfIsFirst(two.waitlist, Patient(second), 1);
  }

  /**
   * On a full day with two distinct patients waiting, cancelling the first
   * slot i of a booked patient gives it to the first waiter, whose time is
   * 8 + i, and moves the second waiter up to position 1.
   */
  lemma PromotionWithTwoWaiting(day: State, booked: Int32, first: Int32, second: Int32, i: int)
    requires day.waitlist == [Patient(first), Patient(second)] && first != second
    requires 0 <= i < |day.appointmentList| && day.appointmentList[i] == Some(Patient(booked))
    requires forall j :: 0 <= j < i ==> day.appointmentList[j] != Some(Patient(booked))
    requires Some(Patient(first)) !in day.appointmentList
    ensures var cancelled := AfterCancelling(day, booked);
      && cancelled.returned
      && |cancelled.after.appointmentList| == |day.appointmentList|
      && |cancelled.after.waitlist| == 1
      && AppointmentTime(cancelled.after.appointmentList, first) == FirstHour + i
      && WaitlistPosition(cancelled.after.waitlist, second) == 1
  {
    CancelPromotesWaitlistHead(day, booked, i);
    PromotionMovesWaitlistUp(day, booked, second);
    IndexOfIsFirst(day.waitlist, Patient(second), 1);
  }

  /** The slots of the test day: 11111111 * (k + 1) in slot k, so 44444444 is in slot 3 and 12345678 in none. */
  lemma TestDaySlots(hospitalName: string)
    ensures var list := TestDay(hospitalName).appointmentList;
      && list[3] == Some(Patient(44444444))
      && (forall j :: 0 <= j < 3 ==> list[j] != Some(Patient(44444444)))
      && Some(Patient(12345678)) !in list
  {
    var nums := RepeatedDigitNumbers();
    var list := BookedSlots(nums);
    forall j | 0 <= j < |list| ensures list[j] != Some(Patient(12345678)) {
      assert list[j] == Some(Patient(nums[j]));
    }
  }

  /**
   * testBookAppointmentSystemUntilWaitlist: on that day, 12345678 and then
   * 98765432 are waitlisted, at positions 1 and 2; the list keeps nine entries.
   */
  lemma BookingUntilWaitlist(hospitalName: string)
    ensures var day := TestDay(hospitalName);
      var first := AfterBooking(day, 12345678);
      var second := AfterBooking(first.after, 98765432);
      && first.returned && second.returned
      && second.after == day.(waitlist := [Patient(12345678), Patient(98765432)])
      && |second.after.appointmentList| == 9 && |second.after.waitlist| == 2
      && WaitlistPosition(second.after.waitlist, 12345678) == 1
      && WaitlistPosition(second.after.waitlist, 98765432) == 2
  {
    BookingUntilFull(hospitalName);
    TwoNewcomersWaitInOrder(TestDay(hospitalName), 12345678, 98765432);
  }

  /**
   * testCancelAppointmentWithReplace: with 12345678 and 98765432 waiting,
   * cancelling 44444444 (at 11:00) gives its slot to 12345678, whose time
   * becomes 11; 98765432 moves up to position 1; the list keeps nine entries
   * and one patient still waits.
   */
  lemma CancelAppointmentWithReplace(hospitalName: string)
    ensures var waiting := TestDay(hospitalName).(waitlist := [Patient(12345678), Patient(98765432)]);
      var cancelled := AfterCancelling(waiting, 44444444);
      && cancelled.returned
      && |cancelled.after.appointmentList| == 9 && |cancelled.after.waitlist| == 1
      && AppointmentTime(cancelled.after.appointmentList, 12345678) == 11
      && WaitlistPosition(cancelled.after.waitlist, 98765432) == 1
  {
    TestDaySlots(hospitalName);
    var waiting := TestDay(hospitalName).(waitlist := [Patient(12345678), Patient(98765432)]);
    PromotionWithTwoWaiting(waiting, 44444444, 12345678, 98765432, 3);
  }
}
