/**
 * The workout metrics of the analytics page, computed from the fetched
 * workout list (`None` while it is still loading).
 */
module Analytics {
  import opened Wrappers
  import opened Numbers
  import opened Dates
  import opened Seqs
  import opened Schema

  /** `workouts?.length || 0`: the total shown. */
  function TotalWorkoutsShown(workouts: Option<seq<Workout>>): (n: nat)
    ensures workouts.None? ==> n == 0
    ensures workouts.Some? ==> n == |workouts.value|
  {
    if workouts.None? then 0 else |workouts.value|
  }

  /** `weeklyWorkouts`: workouts dated seven days before `now` or later; 0 while loading. */
  function WeeklyWorkouts(workouts: Option<seq<Workout>>, now: Time): (n: nat)
    ensures workouts.None? || workouts.value == [] ==> n == 0
    ensures n <= TotalWorkoutsShown(workouts)
    ensures workouts.Some? && (forall w :: w in workouts.value ==> w.date >= WeekAgo(now)) ==> n == |workouts.value|
    ensures workouts.Some? && (forall w :: w in workouts.value ==> w.date < WeekAgo(now)) ==> n == 0
  {
    if workouts.None? then 0 else
      CountExtremes(workouts.value, OnOrAfter(WeekAgo(now)));
      Count(workouts.value, OnOrAfter(WeekAgo(now)))
  }

  /** `monthlyWorkouts`; `monthAgo` is `now` moved back one calendar month. */
  function MonthlyWorkouts(workouts: Option<seq<Workout>>, monthAgo: Time): (n: nat)
    ensures workouts.None? || workouts.value == [] ==> n == 0
    ensures n <= TotalWorkoutsShown(workouts)
    ensures workouts.Some? && (forall w :: w in workouts.value ==> w.date >= monthAgo) ==> n == |workouts.value|
    ensures workouts.Some? && (forall w :: w in workouts.value ==> w.date < monthAgo) ==> n == 0
  {
    if workouts.None? then 0 else
      CountExtremes(workouts.value, OnOrAfter(monthAgo));
      Count(workouts.value, OnOrAfter(monthAgo))
  }

  /** Logging one more workout raises the weekly count exactly when it is dated within the week. */
  lemma WeeklyAfterLogging(ws: seq<Workout>, w: Workout, now: Time)
    ensures WeeklyWorkouts(Some(ws + [w]), now)
         == WeeklyWorkouts(Some(ws), now) + (if w.date >= WeekAgo(now) then 1 else 0)
  {
    CountSnoc(ws, w, OnOrAfter(WeekAgo(now)));
  }

  /** Logging one more workout raises the monthly count exactly when it is dated `monthAgo` or later. */
  lemma MonthlyAfterLogging(ws: seq<Workout>, w: Workout, monthAgo: Time)
    ensures MonthlyWorkouts(Some(ws + [w]), monthAgo)
         == MonthlyWorkouts(Some(ws), monthAgo) + (if w.date >= monthAgo then 1 else 0)
  {
    CountSnoc(ws, w, OnOrAfter(monthAgo));
  }

  /** A month reaches back at least a week, so the weekly count never exceeds the monthly one. */
  lemma WeeklyWithinMonthly(workouts: Option<seq<Workout>>, now: Time, monthAgo: Time)
    requires monthAgo <= WeekAgo(now)
    ensures WeeklyWorkouts(workouts, now) <= MonthlyWorkouts(workouts, monthAgo)
  {
    if workouts.Some? {
      FilterMonotone(workouts.value, OnOrAfter(WeekAgo(now)), OnOrAfter(monthAgo));
    }
  }

  function Burned(w: Workout): real { IntOrZero(w.caloriesBurned) as real }
  function Minutes(w: Workout): real { IntOrZero(w.duration) as real }

  /** `totalCaloriesBurned`: calories burned over all workouts, a missing value as 0; 0 while loading. */
  function TotalCaloriesBurned(workouts: Option<seq<Workout>>): (r: real)
    ensures workouts.None? ==> r == 0.0
    ensures workouts.Some? && workouts.value == [] ==> r == 0.0
  {
    if workouts.None? then 0.0 else Sum(workouts.value, Burned)
  }

  /** Logging one more workout adds exactly its burned calories to the total. */
  lemma TotalCaloriesAfterLogging(ws: seq<Workout>, w: Workout)
    ensures TotalCaloriesBurned(Some(ws + [w])) == TotalCaloriesBurned(Some(ws)) + Burned(w)
  {
    SumConcat(ws, [w], Burned);
  }

  /** `workouts?.length ? Math.round(sum / length) : 0`. */
  function RoundedMean(workouts: Option<seq<Workout>>, total: real): (r: int)
    ensures workouts.None? || workouts.value == [] ==> r == 0
    ensures workouts.Some? && workouts.value != [] ==>
      total / |workouts.value| as real - 0.5 < r as real <= total / |workouts.value| as real + 0.5
  {
    if workouts.None? || |workouts.value| == 0 then 0 else Round(total / |workouts.value| as real)
  }

  /** `averageWorkoutDuration`: the mean duration in whole minutes, a missing one as 0. */
  function AverageWorkoutDuration(workouts: Option<seq<Workout>>): (r: int)
    ensures workouts.None? || workouts.value == [] ==> r == 0
    ensures workouts.Some? && workouts.value != [] ==>
      (var mean := Sum(workouts.value, Minutes) / |workouts.value| as real;
       mean - 0.5 < r as real <= mean + 0.5)
  {
    RoundedMean(workouts, if workouts.None? then 0.0 else Sum(workouts.value, Minutes))
  }

  /** The "Average Calories/Workout" figure: the mean of the burned total in whole calories. */
  function AverageCaloriesPerWorkout(workouts: Option<seq<Workout>>): (r: int)
    ensures workouts.None? || workouts.value == [] ==> r == 0
    ensures workouts.Some? && workouts.value != [] ==>
      (var mean := TotalCaloriesBurned(workouts) / |workouts.value| as real;
       mean - 0.5 < r as real <= mean + 0.5)
  {
    RoundedMean(workouts, TotalCaloriesBurned(workouts))
  }

  /** When every workout lasted d minutes, the average duration is d. */
  lemma AverageOfEqualDurations(ws: seq<Workout>, d: int)
    requires ws != []
    requires forall w :: w in ws ==> w.duration == Some(d)
    ensures AverageWorkoutDuration(Some(ws)) == d
  {
    SumConstant(ws, Minutes, d as real);
    assert Sum(ws, Minutes) / |ws| as real == d as real;
    RoundUnique(d as real, d);
  }

  /** Without any logged calories, both calorie figures are 0. */
  lemma NoCaloriesLogged(ws: seq<Workout>)
    requires forall w :: w in ws ==> w.caloriesBurned.None?
    ensures TotalCaloriesBurned(Some(ws)) == 0.0
    ensures AverageCaloriesPerWorkout(Some(ws)) == 0
  {
    SumConstant(ws, Burned, 0.0);
    if ws != [] {
      RoundUnique(0.0, 0);
    }
  }
}
