/**
 * The doctor's profile form (frontend/src/components/DoctorProfileForm.jsx):
 * the editable list of availability entries and the body it posts. The
 * entries are JavaScript objects shared between the old and the new array,
 * so they are objects here too.
 */
module ProfileForm {
  import opened Wrappers
  import opened Strings
  import opened Schema
  import opened MainRoutes

  /** One availability entry, `{ day_of_week, start_time, end_time }`. */
  class Entry {
    var dayOfWeek: string
    var startTime: string
    var endTime: string

    constructor (dayOfWeek: string, startTime: string, endTime: string)
      ensures this.dayOfWeek == dayOfWeek && this.startTime == startTime && this.endTime == endTime
    {
      this.dayOfWeek, this.startTime, this.endTime := dayOfWeek, startTime, endTime;
    }
  }

  /** The three fields `handleAvailChange` is called with. */
  datatype Field = DayOfWeekField | StartTimeField | EndTimeField

  /** What an entry holds at one moment. */
  datatype EntryValue = EntryValue(dayOfWeek: string, startTime: string, endTime: string)

  function ValueOf(e: Entry): EntryValue
    reads e
  {
    EntryValue(e.dayOfWeek, e.startTime, e.endTime)
  }

  /** `entry[field] = value` on a value. */
  function WithField(v: EntryValue, field: Field, value: string): EntryValue {
    match field
    case DayOfWeekField => v.(dayOfWeek := value)
    case StartTimeField => v.(startTime := value)
    case EndTimeField => v.(endTime := value)
  }

  /** The values of a list of entries, in order. */
  function ValuesOf(entries: seq<Entry>): (r: seq<EntryValue>)
    reads set e | e in entries
    ensures |r| == |entries|
    ensures forall i :: 0 <= i < |entries| ==> r[i] == ValueOf(entries[i])
  {
    if entries == [] then [] else [ValueOf(entries[0])] + ValuesOf(entries[1..])
  }

  /** No entry object occurs twice in the list. */
  predicate Distinct(entries: seq<Entry>) {
    forall i, j :: 0 <= i < j < |entries| ==> entries[i] != entries[j]
  }

  /** `profileData.profile` as the form reads it: fields may be missing. */
  datatype ProfileData = ProfileData(profession: Option<string>, clinicAddress: Option<string>, availability: Option<seq<Entry>>)

  /** The block every "add" appends. */
  const NEW_ENTRY: EntryValue := EntryValue("Monday", "09:00", "17:00")

  class Form {
    var profession: string
    var clinicAddress: string
    var availability: seq<Entry>

    function Values(): seq<EntryValue>
      reads this, set e | e in availability
    {
      ValuesOf(availability)
    }

    /** The initial `useState` values, the same as a reset. */
    constructor (data: ProfileData)
      ensures profession == OrElse(data.profession, "") && clinicAddress == OrElse(data.clinicAddress, "")
      ensures availability == data.availability.GetOr([])
    {
      profession := OrElse(data.profession, "");
      clinicAddress := OrElse(data.clinicAddress, "");
      availability := data.availability.GetOr([]);
    }

    /** The effect run when `profileData` changes: a missing profession or
        address becomes the empty string and missing availability the empty
        list. */
    method Reset(data: ProfileData)
      modifies this
      ensures profession == OrElse(data.profession, "") && clinicAddress == OrElse(data.clinicAddress, "")
      ensures availability == data.availability.GetOr([])
    {
      profession := OrElse(data.profession, "");
      clinicAddress := OrElse(data.clinicAddress, "");
      availability := data.availability.GetOr([]);
    }

    /** `handleAddAvailability`: a fresh Monday 09:00-17:00 entry at the end. */
    method Add()
      modifies this
      ensures Values() == old(Values()) + [NEW_ENTRY]
      ensures availability[..|availability| - 1] == old(availability)
      ensures fresh(availability[|availability| - 1])
      ensures Distinct(old(availability)) ==> Distinct(availability)
      ensures profession == old(profession) && clinicAddress == old(clinicAddress)
    {
      var e := new Entry(NEW_ENTRY.dayOfWeek, NEW_ENTRY.startTime, NEW_ENTRY.endTime);
      availability := availability + [e];
      assert availability[..|availability| - 1] == old(availability);
    }

    /** `handleRemoveAvailability`: the filter that keeps every position but
        `index`; an index outside the list keeps everything. */
    method Remove(index: int)
      modifies this
      ensures 0 <= index < |old(availability)| ==>
        && |availability| == |old(availability)| - 1
        && (forall k :: 0 <= k < index ==> availability[k] == old(availability[k]))
        && (forall k :: index <= k < |availability| ==> availability[k] == old(availability[k + 1]))
      ensures !(0 <= index < |old(availability)|) ==> availability == old(availability)
      ensures Distinct(old(availability)) ==> Distinct(availability)
      ensures profession == old(profession) && clinicAddress == old(clinicAddress)
    {
      if 0 <= index < |availability| {
        availability := availability[..index] + availability[index + 1..];
      }
    }

    /**
     * `handleAvailChange`: the array is copied, but the entry at `index` is
     * the same object, and it is changed in place. An index outside the list
     * makes `newAvail[index]` undefined and the assignment throws; `ok` is
     * false then and nothing changes.
     */
    method Change(index: int, field: Field, value: string) returns (ok: bool)
      modifies if 0 <= index < |availability| then {availability[index]} else {}
      ensures ok <==> 0 <= index < |availability|
      ensures ok ==> ValueOf(availability[index]) == WithField(old(ValueOf(availability[index])), field, value)
      ensures forall j :: 0 <= j < |availability| && (!ok || availability[j] != availability[index]) ==>
        ValueOf(availability[j]) == old(ValueOf(availability[j]))
    {
      if !(0 <= index < |availability|) {
        return false;
      }
      var e := availability[index];
      match field {
        case DayOfWeekField => e.dayOfWeek := value;
        case StartTimeField => e.startTime := value;
        case EndTimeField => e.endTime := value;
      }
      ok := true;
    }

    /** The `formattedAvailability` posted to `/api/doctor/availability/set`:
        the fields renamed to camelCase, one item per entry in order. */
    function Formatted(): (r: seq<Option<Item>>)
      reads this, set e | e in availability
      ensures |r| == |availability|
      ensures forall i :: 0 <= i < |r| ==>
        r[i] == Some(Item(Some(Values()[i].dayOfWeek), Some(Values()[i].startTime), Some(Values()[i].endTime)))
    {
      FormatAll(Values())
    }
  }

  function FormatAll(values: seq<EntryValue>): (r: seq<Option<Item>>)
    ensures |r| == |values|
    ensures forall i :: 0 <= i < |r| ==>
      r[i] == Some(Item(Some(values[i].dayOfWeek), Some(values[i].startTime), Some(values[i].endTime)))
  {
    if values == [] then []
    else [Some(Item(Some(values[0].dayOfWeek), Some(values[0].startTime), Some(values[0].endTime)))] + FormatAll(values[1..])
  }

  /** With distinct entries, a change touches exactly one position. */
  lemma ChangeTouchesOnePosition(entries: seq<Entry>, index: int, j: int)
    requires Distinct(entries) && 0 <= index < |entries| && 0 <= j < |entries| && j != index
    ensures entries[j] != entries[index]
  {
  }

  /** The posted list holds no `null`, so the server's replace commits unless
      an insert itself fails, and it stores one row per entry whose three
      fields are non-empty. */
  lemma FormattedIsAccepted(values: seq<EntryValue>, doctorId: int, b: AvailabilityRow)
    ensures Commits(FormatAll(values), None)
    ensures b in BlocksFor(doctorId, FormatAll(values)) <==>
      exists k :: 0 <= k < |values| && values[k].dayOfWeek != "" && values[k].startTime != "" && values[k].endTime != "" &&
                  b == AvailabilityRow(doctorId, values[k].dayOfWeek, values[k].startTime, values[k].endTime)
  {
    var items := FormatAll(values);
    BlocksForExact(doctorId, items, b);
    if b in BlocksFor(doctorId, items) {
      var k :| 0 <= k < |items| && items[k].Some? && Complete(items[k].value) && RowOf(doctorId, items[k].value) == b;
      assert values[k].dayOfWeek != "" && values[k].startTime != "" && values[k].endTime != "";
    }
    if exists k :: 0 <= k < |values| && values[k].dayOfWeek != "" && values[k].startTime != "" && values[k].endTime != "" &&
                   b == AvailabilityRow(doctorId, values[k].dayOfWeek, values[k].startTime, values[k].endTime) {
      var k :| 0 <= k < |values| && values[k].dayOfWeek != "" && values[k].startTime != "" && values[k].endTime != "" &&
               b == AvailabilityRow(doctorId, values[k].dayOfWeek, values[k].startTime, values[k].endTime);
      assert items[k].Some? && Complete(items[k].value) && RowOf(doctorId, items[k].value) == b;
    }
  }
}
