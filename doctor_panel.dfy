/**
 * The doctor's panel (frontend/src/pages/DoctorPanel.jsx): the time slots
 * offered when accepting a request, the date-time string sent with an
 * accept, and the two handlers that decide what is posted.
 */
module DoctorPanel {
  import opened Wrappers
  import opened Strings

  // ============================================================ time slots

  function DigitChar(d: nat): (c: char)
    requires d < 10
    ensures '0' <= c <= '9'
  {
    ('0' as int + d) as char
  }

  function DigitValue(c: char): int {
    c as int - '0' as int
  }

  /** `n.toString().padStart(2, '0')` for the numbers below 100 that the
      slot loop formats: the tens digit, then the units digit. */
  function Pad2(n: nat): string
    requires n < 100
  {
    [DigitChar(n / 10), DigitChar(n % 10)]
  }

  /** The two digits read back as the number. */
  lemma Pad2Value(n: nat)
    requires n < 100
    ensures '0' <= Pad2(n)[0] <= '9' && '0' <= Pad2(n)[1] <= '9'
    ensures DigitValue(Pad2(n)[0]) * 10 + DigitValue(Pad2(n)[1]) == n
  {
  }

  /** The number of slots: every half hour from 09:00 to 18:00. */
  const SLOT_COUNT: nat := 19

  /** The texts the minute loop pushes for one hour: ":00" and ":30", except
      that at 18 it breaks after ":00". */
  function HourSlots(hour: nat): seq<string>
    requires hour < 100
  {
    if hour == 18 then [Pad2(hour) + ":" + Pad2(0)]
    else [Pad2(hour) + ":" + Pad2(0), Pad2(hour) + ":" + Pad2(30)]
  }

  /** The texts pushed for the hours from 9 up to, not including, `hour`. */
  function SlotsBefore(hour: nat): seq<string>
    requires 9 <= hour <= 19
  {
    if hour == 9 then [] else SlotsBefore(hour - 1) + HourSlots(hour - 1)
  }

  /** `generateTimeSlots()`: the texts of all hours from 9 to 18. There are
      19, each a zero-padded "HH:MM" with minutes 00 or 30, and slot `k`
      stands for 09:00 plus `k` half hours. */
  function TimeSlots(): (r: seq<string>)
    ensures |r| == SLOT_COUNT
    ensures forall k :: 0 <= k < SLOT_COUNT ==> HalfHourText(r[k]) && ClockMinutes(r[k]) == 9 * 60 + 30 * k
  {
    SlotsBeforeShape(19);
    SlotsBefore(19)
  }

  /**
   * `generateTimeSlots`: hours 9 to 18, minutes 0 and 30, and the loop over
   * minutes breaks at 18:30.
   */
  method GenerateTimeSlots() returns (slots: seq<string>)
    ensures slots == TimeSlots()
  {
    slots := [];
    var hour := 9;
    while hour <= 18
      invariant 9 <= hour <= 19
      invariant slots == SlotsBefore(hour)
    {
      var minute := 0;
      while minute < 60
        invariant minute == 0 || minute == 30 || minute == 60
        invariant hour == 18 ==> minute <= 30
        invariant minute == 0 ==> slots == SlotsBefore(hour)
        invariant minute == 30 ==> slots == SlotsBefore(hour) + [Pad2(hour) + ":" + Pad2(0)]
        invariant minute == 60 ==> slots == SlotsBefore(hour) + HourSlots(hour)
      {
        if hour == 18 && minute > 0 {
          break;
        }
        slots := slots + [Pad2(hour) + ":" + Pad2(minute)];
        minute := minute + 30;
      }
      hour := hour + 1;
    }
  }

  /** The minutes since midnight that an "HH:MM" text stands for. */
  function ClockMinutes(s: string): int
    requires |s| == 5
  {
    (DigitValue(s[0]) * 10 + DigitValue(s[1])) * 60 + DigitValue(s[3]) * 10 + DigitValue(s[4])
  }

  /** A zero-padded "HH:MM" with minutes 00 or 30. */
  predicate HalfHourText(s: string) {
    && |s| == 5 && s[2] == ':'
    && '0' <= s[0] <= '9' && '0' <= s[1] <= '9'
    && (s[3..] == "00" || s[3..] == "30")
  }

  /** The texts of one hour are "HH:00" and "HH:30", half an hour apart. */
  lemma HourSlotsShape(h: nat)
    requires 9 <= h <= 18
    ensures |HourSlots(h)| == if h == 18 then 1 else 2
    ensures forall i :: 0 <= i < |HourSlots(h)| ==>
      HalfHourText(HourSlots(h)[i]) && ClockMinutes(HourSlots(h)[i]) == 60 * h + 30 * i
  {
    Pad2Value(h);
    assert Pad2(0) == "00" && Pad2(30) == "30";
  }

  /** Slot `k` of the hours before `hour` is a half-hour text standing for
      09:00 plus `k` half hours. */
  lemma {:induction false} SlotsBeforeShape(hour: nat)
    requires 9 <= hour <= 19
    ensures |SlotsBefore(hour)| == if hour == 19 then SLOT_COUNT else 2 * (hour - 9)
    ensures forall k :: 0 <= k < |SlotsBefore(hour)| ==>
      HalfHourText(SlotsBefore(hour)[k]) && ClockMinutes(SlotsBefore(hour)[k]) == 9 * 60 + 30 * k
  {
    if hour > 9 {
      var h := hour - 1;
      var init := SlotsBefore(h);
      var last := HourSlots(h);
      SlotsBeforeShape(h);
      HourSlotsShape(h);
      assert SlotsBefore(hour) == init + last;
      forall k | 0 <= k < |SlotsBefore(hour)|
        ensures HalfHourText(SlotsBefore(hour)[k]) && ClockMinutes(SlotsBefore(hour)[k]) == 9 * 60 + 30 * k
      {
        if k >= |init| {
          assert SlotsBefore(hour)[k] == last[k - |init|];
        } else {
          assert SlotsBefore(hour)[k] == init[k];
        }
      }
    }
  }

  /** The first slot is "09:00" and the last "18:00". */
  lemma SlotEnds()
    ensures TimeSlots()[0] == "09:00" && TimeSlots()[SLOT_COUNT - 1] == "18:00"
  {
    assert SlotsBefore(10) == SlotsBefore(9) + HourSlots(9);
    assert TimeSlots() == SlotsBefore(18) + HourSlots(18);
    assert Pad2(9) == "09" && Pad2(0) == "00" && Pad2(18) == "18";
    assert TimeSlots()[0] == SlotsBefore(10)[0] by {
      SlotsPrefix(10, 19);
    }
  }

  /** The hours before `lo` come first among those before `hi`. */
  lemma {:induction false} SlotsPrefix(lo: nat, hi: nat)
    requires 9 <= lo <= hi <= 19
    ensures SlotsBefore(lo) <= SlotsBefore(hi)
  {
    if lo < hi {
      SlotsPrefix(lo, hi - 1);
    }
  }

  /** Slots strictly increase in time, so none repeats, and none is after 18:00. */
  lemma SlotsIncrease(j: nat, k: nat)
    requires j < k < SLOT_COUNT
    ensures ClockMinutes(TimeSlots()[j]) < ClockMinutes(TimeSlots()[k]) <= 18 * 60
    ensures TimeSlots()[j] != TimeSlots()[k]
  {
  }

  // =============================================================== actions

  /** `` `${selectedDate} ${selectedTime}:00` ``. */
  function ScheduleString(date: string, time: string): (r: string)
    ensures |r| == |date| + |time| + 4
    ensures r[..|date|] == date && r[|date|] == ' ' && r[|date| + 1..|date| + 1 + |time|] == time
    ensures r[|r| - 3..] == ":00"
  {
    date + " " + time + ":00"
  }

  /** The date string sent with an accept is never empty, so the server's
      check for a missing date always lets it through. */
  lemma ScheduleStringIsTruthy(date: string, time: string)
    ensures Truthy(Some(ScheduleString(date, time)))
  {
  }

  /** The body of `POST /api/doctor/appointment/:id/action`; `appointmentId`
      is `None` where the URL carries `null`. */
  datatype ActionPost = ActionPost(appointmentId: Option<int>, action: string, appointmentDate: Option<string>)

  const DATE_AND_TIME_NEEDED: string := "Please select both date and time"

  /** The panel's component state, its alerts and what it has posted. */
  class Panel {
    var selectedAppointmentId: Option<int>
    var showScheduleModal: bool
    var selectedDate: string
    var selectedTime: string
    var actionLoading: Option<Option<int>>
    var error: Option<string>
    var alerts: seq<string>
    var posted: seq<ActionPost>

    /** The state at mount. */
    constructor ()
      ensures selectedAppointmentId.None? && !showScheduleModal && selectedDate == "" && selectedTime == ""
      ensures actionLoading.None? && error.None? && alerts == [] && posted == []
    {
      selectedAppointmentId, showScheduleModal, selectedDate, selectedTime := None, false, "", "";
      actionLoading, error, alerts, posted := None, None, [], [];
    }

    /**
     * `handleAppointmentAction`. Accepting only remembers the request and
     * opens the scheduling dialog; any other action is posted at once.
     * `ok` says whether the post succeeded; the refetch that follows it is
     * not modelled.
     */
    method HandleAppointmentAction(appointmentId: int, action: string, ok: bool)
      modifies this
      ensures action == "accept" ==>
        && selectedAppointmentId == Some(appointmentId) && showScheduleModal
        && posted == old(posted) && alerts == old(alerts) && error == old(error)
        && actionLoading == old(actionLoading)
        && selectedDate == old(selectedDate) && selectedTime == old(selectedTime)
      ensures action != "accept" ==>
        && posted == old(posted) + [ActionPost(Some(appointmentId), action, None)]
        && actionLoading.None?
        && (ok ==> alerts == old(alerts) + ["Appointment " + action + "ed successfully!"] && error == old(error))
        && (!ok ==> alerts == old(alerts) && error == Some("Failed to perform action: " + action + "."))
        && selectedAppointmentId == old(selectedAppointmentId) && showScheduleModal == old(showScheduleModal)
        && selectedDate == old(selectedDate) && selectedTime == old(selectedTime)
    {
      if action == "accept" {
        selectedAppointmentId := Some(appointmentId);
        showScheduleModal := true;
        return;
      }
      actionLoading := Some(Some(appointmentId));
      posted := posted + [ActionPost(Some(appointmentId), action, None)];
      if ok {
        alerts := alerts + ["Appointment " + action + "ed successfully!"];
      } else {
        error := Some("Failed to perform action: " + action + ".");
      }
      actionLoading := None;
    }

    /**
     * `handleScheduleConfirm`. Without both a date and a time it only
     * alerts; otherwise it posts the accept with the combined date string
     * and, when that succeeds, closes and clears the dialog.
     */
    method HandleScheduleConfirm(ok: bool)
      modifies this
      ensures old(selectedDate) == "" || old(selectedTime) == "" ==>
        && alerts == old(alerts) + [DATE_AND_TIME_NEEDED]
        && posted == old(posted) && error == old(error) && actionLoading == old(actionLoading)
        && selectedAppointmentId == old(selectedAppointmentId) && showScheduleModal == old(showScheduleModal)
        && selectedDate == old(selectedDate) && selectedTime == old(selectedTime)
      ensures old(selectedDate) != "" && old(selectedTime) != "" ==>
        && posted == old(posted) + [ActionPost(old(selectedAppointmentId), "accept",
                                               Some(ScheduleString(old(selectedDate), old(selectedTime))))]
        && actionLoading.None?
        && (ok ==> && !showScheduleModal && selectedDate == "" && selectedTime == ""
                   && selectedAppointmentId.None?
                   && alerts == old(alerts) + ["Appointment scheduled successfully!"] && error == old(error))
        && (!ok ==> && showScheduleModal == old(showScheduleModal)
                    && selectedDate == old(selectedDate) && selectedTime == old(selectedTime)
                    && selectedAppointmentId == old(selectedAppointmentId)
                    && alerts == old(alerts) && error == Some("Failed to schedule appointment."))
    {
      if selectedDate == "" || selectedTime == "" {
        alerts := alerts + [DATE_AND_TIME_NEEDED];
        return;
      }
      var when := ScheduleString(selectedDate, selectedTime);
      actionLoading := Some(selectedAppointmentId);
      posted := posted + [ActionPost(selectedAppointmentId, "accept", Some(when))];
      if ok {
        showScheduleModal := false;
        selectedDate, selectedTime := "", "";
        selectedAppointmentId := None;
        alerts := alerts + ["Appointment scheduled successfully!"];
      } else {
        error := Some("Failed to schedule appointment.");
      }
      actionLoading := None;
    }
  }

  /** Accepting from the list, picking a date and one of the offered slots,
      and confirming posts exactly one accept, for that request, carrying
      "<date> <HH:MM>:00"; nothing is posted before the confirmation. */
  method AcceptThenSchedule(p: Panel, appointmentId: int, date: string, time: string) returns (sent: ActionPost)
    requires date != "" && time in TimeSlots()
    modifies p
    ensures p.posted == old(p.posted) + [sent]
    ensures sent == ActionPost(Some(appointmentId), "accept", Some(date + " " + time + ":00"))
    ensures !p.showScheduleModal && p.selectedAppointmentId.None?
  {
    p.HandleAppointmentAction(appointmentId, "accept", true);
    assert p.posted == old(p.posted);
    p.selectedDate := date;
    p.selectedTime := time;
    p.HandleScheduleConfirm(true);
    sent := p.posted[|p.posted| - 1];
  }
}
