/**
 * The patient dashboard (frontend/src/pages/PatientDashboard.jsx): the three
 * status sections, the message on each appointment card, the notification
 * banners and the fetch that fills the page.
 */
module PatientDashboard {
  import opened Wrappers
  import opened Collections
  import opened Schema
  import opened Tables
  import opened Consistency
  import opened MainRoutes

  // ------------------------------------------------------------------ cards

  const REJECTED_MESSAGE: string := "Rejected." + " The doctor cannot meet this request. You may try another expert."
  const PENDING_MESSAGE: string := "Pending." + " The doctor is currently reviewing your request."

  /** The message of `AppointmentCard`. `shownDate` is what the browser's
      `toLocaleString` makes of `appointment_date`, which depends on its
      locale and clock and so is a parameter. */
  function CardMessage(row: PatientRow, shownDate: string): string {
    if row.status == StatusName(Accepted) then
      "Accepted! Scheduled for " + shownDate + ". Doctor's Email: " + row.doctorEmail
    else if row.status == StatusName(Rejected) then REJECTED_MESSAGE
    else PENDING_MESSAGE
  }

  /** The card tells the three cases apart: it carries the doctor's email
      exactly for an accepted appointment, the rejection text exactly for a
      rejected one, and every other status, known or not, reads as pending. */
  lemma CardMessageFollowsStatus(row: PatientRow, shownDate: string)
    ensures var m := CardMessage(row, shownDate);
      && (row.status == "accepted" <==> (|m| >= 9 && m[..9] == "Accepted!"))
      && (row.status == "accepted" ==> m[|m| - |row.doctorEmail|..] == row.doctorEmail)
      && (m == REJECTED_MESSAGE <==> row.status == "rejected")
      && (m == PENDING_MESSAGE <==> row.status != "accepted" && row.status != "rejected")
  {
    var m := CardMessage(row, shownDate);
    assert StatusName(Accepted) == "accepted" && StatusName(Rejected) == "rejected";
    assert REJECTED_MESSAGE[0] == 'R' && PENDING_MESSAGE[0] == 'P';
    if row.status == "accepted" {
      var head := "Accepted! Scheduled for " + shownDate + ". Doctor's Email: ";
      assert m == head + row.doctorEmail;
      assert m[..9] == "Accepted!";
      assert m[0] == 'A';
    } else if row.status == "rejected" {
      assert m == REJECTED_MESSAGE;
    } else {
      assert m == PENDING_MESSAGE;
    }
  }

  // --------------------------------------------------------------- sections

  /** `a => a.status === status`. */
  function HasStatus(status: string): PatientRow -> bool {
    (row: PatientRow) => row.status == status
  }

  /** The three sections of the page. */
  function AcceptedRows(rows: seq<PatientRow>): seq<PatientRow> {
    Filter(rows, HasStatus("accepted"))
  }

  function RejectedRows(rows: seq<PatientRow>): seq<PatientRow> {
    Filter(rows, HasStatus("rejected"))
  }

  function PendingRows(rows: seq<PatientRow>): seq<PatientRow> {
    Filter(rows, HasStatus("pending"))
  }

  /** Each section holds exactly the rows with its status, so no row is in
      two sections. */
  lemma SectionsAreByStatus(rows: seq<PatientRow>, row: PatientRow)
    ensures row in AcceptedRows(rows) <==> row in rows && row.status == "accepted"
    ensures row in RejectedRows(rows) <==> row in rows && row.status == "rejected"
    ensures row in PendingRows(rows) <==> row in rows && row.status == "pending"
    ensures !(row in AcceptedRows(rows) && row in RejectedRows(rows))
    ensures !(row in AcceptedRows(rows) && row in PendingRows(rows))
    ensures !(row in RejectedRows(rows) && row in PendingRows(rows))
  {
  }

  /** The sections keep the order of the fetched list: whatever relation holds
      between earlier and later rows there (newest first, say) holds in each
      section. */
  lemma SectionsKeepOrder(rows: seq<PatientRow>, rel: (PatientRow, PatientRow) -> bool)
    requires Pairwise(rows, rel)
    ensures Pairwise(AcceptedRows(rows), rel)
    ensures Pairwise(RejectedRows(rows), rel)
    ensures Pairwise(PendingRows(rows), rel)
  {
    FilterPairwise(rows, HasStatus("accepted"), rel);
    FilterPairwise(rows, HasStatus("rejected"), rel);
    FilterPairwise(rows, HasStatus("pending"), rel);
  }

  /** When every status is one the server stores, the three section counts add
      up to the "Your Appointments" count: every card appears once. */
  lemma {:induction false} SectionsCoverTheList(rows: seq<PatientRow>)
    requires forall i :: 0 <= i < |rows| ==> rows[i].status in {"pending", "accepted", "rejected"}
    ensures |AcceptedRows(rows)| + |RejectedRows(rows)| + |PendingRows(rows)| == |rows|
  {
    if rows != [] {
      SectionsCoverTheList(rows[1..]);
    }
  }

  /** Rows the patient list returns carry a stored status. */
  lemma ServerRowsHaveStoredStatus(s: Snapshot, actor: PublicUser)
    requires Consistent(s) && actor.role == PATIENT
    ensures var rows := PatientAppointments(s, actor).body;
      |AcceptedRows(rows)| + |RejectedRows(rows)| + |PendingRows(rows)| == |rows|
  {
    var rows := PatientAppointments(s, actor).body;
    PatientListIsNewestFirst(s, actor);
    forall i | 0 <= i < |rows| ensures rows[i].status in {"pending", "accepted", "rejected"} {
      var newest := Reverse(OfPatient(s.appointments, actor.id));
      assert rows[i].status == StatusName(newest[i].status);
    }
    SectionsCoverTheList(rows);
  }

  // ------------------------------------------------------------ page state

  const FETCH_FAILED: string := "Failed to fetch your appointment history."

  /** The dashboard's `useState` values. */
  datatype PageState = PageState(appointments: seq<PatientRow>, loading: bool, error: Option<string>, showAcceptedMessage: bool)

  const INITIAL: PageState := PageState([], true, None, false)

  /** `fetchAppointments` once the request settles: `None` is a failed
      request. A fetched list replaces the old one and raises the accepted
      notification when it holds an accepted row; nothing here lowers it. */
  function Fetched(st: PageState, response: Option<seq<PatientRow>>): (r: PageState)
    ensures !r.loading
    ensures response.None? ==> r == st.(loading := false, error := Some(FETCH_FAILED))
    ensures response.Some? ==> r.appointments == response.value && r.error.None?
    ensures r.showAcceptedMessage <==>
      st.showAcceptedMessage || (response.Some? && exists i :: 0 <= i < |response.value| && response.value[i].status == "accepted")
  {
    match response
    case None => st.(loading := false, error := Some(FETCH_FAILED))
    case Some(list) =>
      var raise := |AcceptedRows(list)| > 0;
      assert raise <==> exists i :: 0 <= i < |list| && list[i].status == "accepted" by {
        if exists i :: 0 <= i < |list| && list[i].status == "accepted" {
          var i :| 0 <= i < |list| && list[i].status == "accepted";
          assert list[i] in AcceptedRows(list);
        }
        if raise {
          assert AcceptedRows(list)[0] in list;
        }
      }
      PageState(list, false, None, st.showAcceptedMessage || raise)
  }

  /** The effect run when `user` changes: a patient's page fetches, every
      other visitor's page just stops loading. */
  function UserChanged(st: PageState, user: Option<PublicUser>, response: Option<seq<PatientRow>>): (r: PageState)
    ensures !r.loading
    ensures !(user.Some? && user.value.role == PATIENT) ==> r == st.(loading := false)
    ensures user.Some? && user.value.role == PATIENT ==> r == Fetched(st.(loading := true, error := None), response)
  {
    if user.Some? && user.value.role == PATIENT then Fetched(st.(loading := true, error := None), response)
    else st.(loading := false)
  }

  /** The ten-second timer that hides the accepted notification again. */
  function TimerFired(st: PageState): (r: PageState)
    ensures !r.showAcceptedMessage
    ensures r.(showAcceptedMessage := st.showAcceptedMessage) == st
  {
    st.(showAcceptedMessage := false)
  }

  /** Only a patient's page ever loads appointments. */
  lemma OnlyPatientsFetch(user: Option<PublicUser>, response: Option<seq<PatientRow>>)
    requires !(user.Some? && user.value.role == PATIENT)
    ensures UserChanged(INITIAL, user, response).appointments == []
  {
  }

  // ---------------------------------------------------------------- banners

  /** The rejected banner and the number it reports. */
  function RejectedBanner(st: PageState): (r: Option<nat>)
    ensures r.Some? <==> exists i :: 0 <= i < |st.appointments| && st.appointments[i].status == "rejected"
    ensures r.Some? ==> r.value == |RejectedRows(st.appointments)|
  {
    var n := |RejectedRows(st.appointments)|;
    if n > 0 then
      assert RejectedRows(st.appointments)[0] in st.appointments;
      Some(n)
    else
      assert forall i :: 0 <= i < |st.appointments| ==> st.appointments[i].status != "rejected";
      None
  }

  /** The accepted banner and the number it reports. */
  function AcceptedBanner(st: PageState): (r: Option<nat>)
    ensures r.Some? <==> st.showAcceptedMessage && exists i :: 0 <= i < |st.appointments| && st.appointments[i].status == "accepted"
    ensures r.Some? ==> r.value == |AcceptedRows(st.appointments)|
  {
    var n := |AcceptedRows(st.appointments)|;
    if st.showAcceptedMessage && n > 0 then
      assert AcceptedRows(st.appointments)[0] in st.appointments;
      Some(n)
    else
      assert n == 0 ==> forall i :: 0 <= i < |st.appointments| ==> st.appointments[i].status != "accepted";
      None
  }

  /** A successful fetch with an accepted appointment shows the accepted
      banner until the timer fires, which hides it whatever the list holds. */
  lemma AcceptedBannerAfterFetch(st: PageState, list: seq<PatientRow>, i: nat)
    requires i < |list| && list[i].status == "accepted"
    ensures AcceptedBanner(Fetched(st, Some(list))).Some?
    ensures AcceptedBanner(TimerFired(Fetched(st, Some(list)))).None?
  {
  }

  // ------------------------------------------------------------------- view

  /** What the page renders. */
  datatype View = LoadingView | ErrorView(message: string) | RestrictedView | DashboardView(rows: seq<PatientRow>)

  /** The early returns and then the dashboard; the component is only mounted
      with a user (the route guard sees to that), so `user` is not optional. */
  function PageView(st: PageState, user: PublicUser): (v: View)
    ensures v.DashboardView? <==> !st.loading && st.error.None? && user.role == PATIENT
    ensures v.DashboardView? ==> v.rows == st.appointments
    ensures st.loading ==> v == LoadingView
    ensures v.ErrorView? ==> st.error == Some(v.message)
  {
    if st.loading then LoadingView
    else if st.error.Some? then ErrorView(st.error.value)
    else if user.role != PATIENT then RestrictedView
    else DashboardView(st.appointments)
  }

  /** A non-patient never sees the dashboard: the page stops loading without
      fetching and then shows the restriction notice. */
  lemma NonPatientIsRestricted(user: PublicUser, response: Option<seq<PatientRow>>)
    requires user.role != PATIENT
    ensures PageView(UserChanged(INITIAL, Some(user), response), user) == RestrictedView
  {
  }
}
