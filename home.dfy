/**
 * The home page (frontend/src/pages/Home.jsx): the mood slider's bucketing
 * and the choice of welcome view by role.
 */
module Home {
  import opened Wrappers
  import opened Schema

  /** One entry of `moods`; `name` is its `label`, and the colours are
      presentation only. */
  datatype Mood = Mood(name: string, value: int)

  const MOODS: seq<Mood> := [
    Mood("Down", 0), Mood("Content", 25), Mood("Peaceful", 50), Mood("Happy", 75), Mood("Excited", 100)
  ]

  /** The position in `MOODS` that `getMoodFromValue` returns: the first
      threshold the value stays below, or the last entry. */
  function MoodIndex(v: real): (k: nat)
    ensures k < |MOODS|
    ensures k == 0 <==> v < 20.0
    ensures k == 1 <==> 20.0 <= v < 37.5
    ensures k == 2 <==> 37.5 <= v < 62.5
    ensures k == 3 <==> 62.5 <= v < 87.5
    ensures k == 4 <==> 87.5 <= v
  {
    if v < 20.0 then 0
    else if v < 37.5 then 1
    else if v < 62.5 then 2
    else if v < 87.5 then 3
    else 4
  }

  /** `getMoodFromValue`. */
  function MoodOf(v: real): Mood {
    MOODS[MoodIndex(v)]
  }

  /** A larger value never picks an earlier mood. */
  lemma MoodIsMonotone(v: real, w: real)
    requires v <= w
    ensures MoodIndex(v) <= MoodIndex(w)
  {
  }

  /** Every mood is reached by some slider value, and the value a mood
      stands for is itself mapped to that mood. */
  lemma EveryMoodIsReached(k: nat)
    requires k < |MOODS|
    ensures MoodIndex(MOODS[k].value as real) == k
    ensures MoodOf(MOODS[k].value as real) == MOODS[k]
  {
  }

  /** The initial slider position, 50, shows "Peaceful". */
  lemma InitialMood()
    ensures MoodOf(50.0).name == "Peaceful"
  {
  }

  /** The body of the home page. */
  datatype View = Unauthenticated | PatientWelcome | AdminWelcome | DoctorWelcome | EmptyCard

  /** `user ? (patient ? ... : <card>{admin ? ... : doctor ? ... : null}</card>) : ...`. */
  function HomeView(user: Option<PublicUser>): (v: View)
    ensures v == Unauthenticated <==> user.None?
    ensures v == PatientWelcome <==> user.Some? && user.value.role == PATIENT
    ensures v == AdminWelcome <==> user.Some? && user.value.role == ADMIN
    ensures v == DoctorWelcome <==> user.Some? && user.value.role == DOCTOR
  {
    if user.None? then Unauthenticated
    else if user.value.role == PATIENT then PatientWelcome
    else if user.value.role == ADMIN then AdminWelcome
    else if user.value.role == DOCTOR then DoctorWelcome
    else EmptyCard
  }

  /** A signed-in user with any other role sees an empty card. */
  lemma OtherRolesSeeEmptyCard(u: PublicUser)
    requires u.role != PATIENT && u.role != ADMIN && u.role != DOCTOR
    ensures HomeView(Some(u)) == EmptyCard
  {
  }
}
