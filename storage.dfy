/**
 * `MemStorage`: the in-memory store behind every route. Seven tables keyed by
 * record id; creates fill defaults and draw a fresh id, updates merge a
 * partial record over the stored one, deletes report whether the id was there.
 */
module Storage {
  import opened Wrappers
  import opened Numbers
  import opened Dates
  import opened Seqs
  import opened Tables
  import opened Schema

  /** t is a valid table whose records carry their own key, every key below `bound`. */
  ghost predicate Keyed<R>(t: Table<Id, R>, idOf: R -> Id, bound: Id)
  {
    t.Valid() && forall k :: k in t.rows ==> k < bound && idOf(t.rows[k]) == k
  }

  lemma KeyedGrow<R>(t: Table<Id, R>, idOf: R -> Id, bound: Id, r: R)
    requires Keyed(t, idOf, bound) && idOf(r) == bound
    ensures bound !in t.rows
    ensures Keyed(t.Put(bound, r), idOf, bound + 1)
    ensures t.Put(bound, r).Values() == t.Values() + [r]
  {
    PutNew(t, bound, r);
  }

  lemma KeyedSet<R>(t: Table<Id, R>, idOf: R -> Id, bound: Id, k: Id, r: R)
    requires Keyed(t, idOf, bound) && k in t.rows && idOf(r) == k
    ensures Keyed(t.Put(k, r), idOf, bound)
  {
    PutExisting(t, k, r);
  }

  lemma KeyedRemove<R>(t: Table<Id, R>, idOf: R -> Id, bound: Id, k: Id)
    requires Keyed(t, idOf, bound)
    ensures Keyed(t.Remove(k), idOf, bound)
  {
    RemoveValid(t, k);
  }

  /** A keyed table lists each stored record once, and nothing else. */
  lemma KeyedValues<R>(t: Table<Id, R>, idOf: R -> Id, bound: Id)
    requires Keyed(t, idOf, bound)
    ensures Distinct(t.Values())
    ensures forall x :: x in t.Values() <==> x in t.rows.Values
  {
    ValuesDistinct(t, idOf);
    ValuesMembers(t);
  }

  function UserId(u: User): Id { u.id }
  function WorkoutId(w: Workout): Id { w.id }
  function ExerciseId(e: Exercise): Id { e.id }
  function MealId(m: Meal): Id { m.id }
  function FoodItemId(f: FoodItem): Id { f.id }
  function BodyMeasurementId(m: BodyMeasurement): Id { m.id }
  function WaterIntakeId(w: WaterIntake): Id { w.id }

  function WorkoutDate(w: Workout): int { w.date }
  function MealDate(m: Meal): int { m.date }
  function BodyMeasurementDate(m: BodyMeasurement): int { m.date }

  function HasEmail(email: string): User -> bool { (u: User) => u.email == email }
  function HasUsername(username: string): User -> bool { (u: User) => u.username == username }
  function WorkoutOf(userId: Id): Workout -> bool { (w: Workout) => w.userId == userId }
  function ExerciseOf(workoutId: Id): Exercise -> bool { (e: Exercise) => e.workoutId == workoutId }
  function MealOf(userId: Id): Meal -> bool { (m: Meal) => m.userId == userId }
  function MealOn(userId: Id, date: Time): Meal -> bool { (m: Meal) => m.userId == userId && OnDay(m.date, date) }
  function FoodItemOf(mealId: Id): FoodItem -> bool { (f: FoodItem) => f.mealId == mealId }
  function BodyMeasurementOf(userId: Id): BodyMeasurement -> bool { (m: BodyMeasurement) => m.userId == userId }
  function WaterIntakeOn(userId: Id, date: Time): WaterIntake -> bool { (w: WaterIntake) => w.userId == userId && OnDay(w.date, date) }

  /** The food item `createFoodItem` stores under `id`: a falsy per-gram protein, carbs or fat becomes 0. */
  function NewFoodItem(id: Id, insert: InsertFoodItem): FoodItem
  {
    FoodItem(id, insert.mealId, insert.name, insert.quantity,
      insert.caloriesPerGram, Some(RealOr(insert.proteinPerGram, 0.0)),
      Some(RealOr(insert.carbsPerGram, 0.0)), Some(RealOr(insert.fatPerGram, 0.0)))
  }

  /** Filters a keyed table's values: the result lists each matching record once. */
  lemma KeyedFilter<R>(t: Table<Id, R>, idOf: R -> Id, bound: Id, p: R -> bool)
    requires Keyed(t, idOf, bound)
    ensures Distinct(Filter(t.Values(), p))
    ensures forall x :: x in Filter(t.Values(), p) <==> x in t.rows.Values && p(x)
  {
    KeyedValues(t, idOf, bound);
    FilterDistinct(t.Values(), p);
    FilterMembers(t.Values(), p);
  }

  /** Filters then sorts a keyed table's values by descending key. */
  lemma KeyedFilterSort<R>(t: Table<Id, R>, idOf: R -> Id, bound: Id, p: R -> bool, key: R -> int)
    requires Keyed(t, idOf, bound)
    ensures Distinct(SortDesc(Filter(t.Values(), p), key))
    ensures SortedDesc(SortDesc(Filter(t.Values(), p), key), key)
    ensures forall x :: x in SortDesc(Filter(t.Values(), p), key) <==> x in t.rows.Values && p(x)
  {
    var s := Filter(t.Values(), p);
    KeyedFilter(t, idOf, bound, p);
    SortDescDistinct(s, key);
    SortDescSorted(s, key);
    SortDescMembers(s, key);
  }

  class MemStorage {
    var users: Table<Id, User>
    var workouts: Table<Id, Workout>
    var exercises: Table<Id, Exercise>
    var meals: Table<Id, Meal>
    var foodItems: Table<Id, FoodItem>
    var bodyMeasurements: Table<Id, BodyMeasurement>
    var waterIntakes: Table<Id, WaterIntake>
    /** The fresh-id oracle standing for `randomUUID()`: no stored id reaches it. */
    var nextId: Id

    ghost predicate Valid()
      reads this
    {
      && Keyed(users, UserId, nextId)
      && Keyed(workouts, WorkoutId, nextId)
      && Keyed(exercises, ExerciseId, nextId)
      && Keyed(meals, MealId, nextId)
      && Keyed(foodItems, FoodItemId, nextId)
      && Keyed(bodyMeasurements, BodyMeasurementId, nextId)
      && Keyed(waterIntakes, WaterIntakeId, nextId)
    }

    /** `new MemStorage()`: seven empty maps. */
    constructor ()
      ensures Valid()
      ensures users.rows == map[] && workouts.rows == map[] && exercises.rows == map[]
      ensures meals.rows == map[] && foodItems.rows == map[]
      ensures bodyMeasurements.rows == map[] && waterIntakes.rows == map[]
    {
      users, workouts, exercises := Empty(), Empty(), Empty();
      meals, foodItems := Empty(), Empty();
      bodyMeasurements, waterIntakes := Empty(), Empty();
      nextId := 0;
    }

    // ---------------------------------------------------------------- users

    /** `getUser(id)`. */
    function GetUser(id: Id): (r: Option<User>)
      reads this
      requires Valid()
      ensures r.Some? <==> id in users.rows
      ensures r.Some? ==> r.value == users.rows[id] && r.value.id == id
    {
      users.Get(id)
    }

    /** `getUserByEmail(email)`: the first user, in insertion order, with that email. */
    function GetUserByEmail(email: string): (r: Option<User>)
      reads this
      requires Valid()
      ensures r.None? <==> forall u :: u in users.rows.Values ==> u.email != email
      ensures r.Some? ==> r.value in users.rows.Values && r.value.email == email
      ensures r.Some? ==> exists i :: 0 <= i < |users.Values()| && users.Values()[i] == r.value
                                   && forall j :: 0 <= j < i ==> users.Values()[j].email != email
    {
      KeyedValues(users, UserId, nextId);
      Find(users.Values(), HasEmail(email))
    }

    /** `getUserByUsername(username)`: the first user, in insertion order, with that username. */
    function GetUserByUsername(username: string): (r: Option<User>)
      reads this
      requires Valid()
      ensures r.None? <==> forall u :: u in users.rows.Values ==> u.username != username
      ensures r.Some? ==> r.value in users.rows.Values && r.value.username == username
      ensures r.Some? ==> exists i :: 0 <= i < |users.Values()| && users.Values()[i] == r.value
                                   && forall j :: 0 <= j < i ==> users.Values()[j].username != username
    {
      KeyedValues(users, UserId, nextId);
      Find(users.Values(), HasUsername(username))
    }

    /** `createUser(insert)`: a fresh id, falsy goals and dietary preference replaced by the defaults. */
    method CreateUser(insert: InsertUser, now: Time) returns (user: User)
      requires Valid()
      modifies this`users, this`nextId
      ensures Valid() && nextId == old(nextId) + 1
      ensures user.id == old(nextId) && user.id !in old(users.rows)
      ensures user == User(user.id, insert.username, insert.email, insert.password,
        insert.firstName, insert.lastName,
        Some(TextOr(insert.dietaryPreference, DefaultDietaryPreference)),
        Some(IntOr(insert.dailyCalorieGoal, DefaultCalorieGoal)),
        Some(IntOr(insert.dailyProteinGoal, DefaultProteinGoal)),
        Some(IntOr(insert.dailyCarbGoal, DefaultCarbGoal)),
        Some(IntOr(insert.dailyFatGoal, DefaultFatGoal)),
        now)
      ensures users == old(users).Put(user.id, user)
      ensures users.Values() == old(users.Values()) + [user]
    {
      user := User(nextId, insert.username, insert.email, insert.password,
        insert.firstName, insert.lastName,
        Some(TextOr(insert.dietaryPreference, DefaultDietaryPreference)),
        Some(IntOr(insert.dailyCalorieGoal, DefaultCalorieGoal)),
        Some(IntOr(insert.dailyProteinGoal, DefaultProteinGoal)),
        Some(IntOr(insert.dailyCarbGoal, DefaultCarbGoal)),
        Some(IntOr(insert.dailyFatGoal, DefaultFatGoal)),
        now);
      KeyedGrow(users, UserId, nextId, user);
      users := users.Put(nextId, user);
      nextId := nextId + 1;
    }

    /** `updateUser(id, updates)`: undefined for an unknown id, else the merged record, stored in place. */
    method UpdateUser(id: Id, updates: UserPatch) returns (r: Option<User>)
      requires Valid()
      modifies this`users
      ensures Valid()
      ensures r.None? <==> id !in old(users.rows)
      ensures r.None? ==> users == old(users)
      ensures r.Some? ==> (r.value == PatchUser(old(users.rows[id]), updates)
                       && users == old(users).Put(id, r.value)
                       && users.order == old(users.order))
    {
      var existing := users.Get(id);
      if existing.None? {
        return None;
      }
      var updated := PatchUser(existing.value, updates);
      KeyedSet(users, UserId, nextId, id, updated);
      users := users.Put(id, updated);
      r := Some(updated);
    }

    // ------------------------------------------------------------- workouts

    /** `getWorkouts(userId)`: the user's workouts, newest first. */
    function GetWorkouts(userId: Id): (r: seq<Workout>)
      reads this
      requires Valid()
      ensures Distinct(r)
      ensures forall w :: w in r <==> w in workouts.rows.Values && w.userId == userId
      ensures SortedDesc(r, WorkoutDate)
    {
      KeyedFilterSort(workouts, WorkoutId, nextId, WorkoutOf(userId), WorkoutDate);
      SortDesc(Filter(workouts.Values(), WorkoutOf(userId)), WorkoutDate)
    }

    /** `getWorkout(id)`. */
    function GetWorkout(id: Id): (r: Option<Workout>)
      reads this
      requires Valid()
      ensures r.Some? <==> id in workouts.rows
      ensures r.Some? ==> r.value == workouts.rows[id] && r.value.id == id
    {
      workouts.Get(id)
    }

    /** `createWorkout(insert)`: a fresh id; a falsy duration, calories burned or notes becomes null. */
    method CreateWorkout(insert: InsertWorkout, now: Time) returns (workout: Workout)
      requires Valid()
      modifies this`workouts, this`nextId
      ensures Valid() && nextId == old(nextId) + 1
      ensures workout.id == old(nextId) && workout.id !in old(workouts.rows)
      ensures workout == Workout(workout.id, insert.userId, insert.name, insert.date,
        IntOrNull(insert.duration), IntOrNull(insert.caloriesBurned),
        insert.workoutType, TextOrNull(insert.notes), now)
      ensures workouts == old(workouts).Put(workout.id, workout)
      ensures workouts.Values() == old(workouts.Values()) + [workout]
    {
      workout := Workout(nextId, insert.userId, insert.name, insert.date,
        IntOrNull(insert.duration), IntOrNull(insert.caloriesBurned),
        insert.workoutType, TextOrNull(insert.notes), now);
      KeyedGrow(workouts, WorkoutId, nextId, workout);
      workouts := workouts.Put(nextId, workout);
      nextId := nextId + 1;
    }

    /** `updateWorkout(id, updates)`. */
    method UpdateWorkout(id: Id, updates: WorkoutPatch) returns (r: Option<Workout>)
      requires Valid()
      modifies this`workouts
      ensures Valid()
      ensures r.None? <==> id !in old(workouts.rows)
      ensures r.None? ==> workouts == old(workouts)
      ensures r.Some? ==> (r.value == PatchWorkout(old(workouts.rows[id]), updates)
                       && workouts == old(workouts).Put(id, r.value)
                       && workouts.order == old(workouts.order))
    {
      var existing := workouts.Get(id);
      if existing.None? {
        return None;
      }
      var updated := PatchWorkout(existing.value, updates);
      KeyedSet(workouts, WorkoutId, nextId, id, updated);
      workouts := workouts.Put(id, updated);
      r := Some(updated);
    }

    /** `deleteWorkout(id)`: true iff the id was stored; only that entry goes. */
    method DeleteWorkout(id: Id) returns (found: bool)
      requires Valid()
      modifies this`workouts
      ensures Valid()
      ensures found <==> id in old(workouts.rows)
      ensures workouts == old(workouts).Remove(id)
      ensures workouts.rows == old(workouts.rows) - {id}
    {
      found := id in workouts.rows;
      KeyedRemove(workouts, WorkoutId, nextId, id);
      workouts := workouts.Remove(id);
    }

    // ------------------------------------------------------------ exercises

    /** `getExercisesByWorkout(workoutId)`, in insertion order. */
    function GetExercisesByWorkout(workoutId: Id): (r: seq<Exercise>)
      reads this
      requires Valid()
      ensures Distinct(r)
      ensures forall e :: e in r <==> e in exercises.rows.Values && e.workoutId == workoutId
    {
      KeyedFilter(exercises, ExerciseId, nextId, ExerciseOf(workoutId));
      Filter(exercises.Values(), ExerciseOf(workoutId))
    }

    /** `createExercise(insert)`: a fresh id; falsy sets, reps, weight, distance or duration becomes null. */
    method CreateExercise(insert: InsertExercise) returns (exercise: Exercise)
      requires Valid()
      modifies this`exercises, this`nextId
      ensures Valid() && nextId == old(nextId) + 1
      ensures exercise.id == old(nextId) && exercise.id !in old(exercises.rows)
      ensures exercise == Exercise(exercise.id, insert.workoutId, insert.name,
        IntOrNull(insert.sets), IntOrNull(insert.reps), RealOrNull(insert.weight),
        RealOrNull(insert.distance), IntOrNull(insert.duration))
      ensures exercises == old(exercises).Put(exercise.id, exercise)
      ensures exercises.Values() == old(exercises.Values()) + [exercise]
    {
      exercise := Exercise(nextId, insert.workoutId, insert.name,
        IntOrNull(insert.sets), IntOrNull(insert.reps), RealOrNull(insert.weight),
        RealOrNull(insert.distance), IntOrNull(insert.duration));
      KeyedGrow(exercises, ExerciseId, nextId, exercise);
      exercises := exercises.Put(nextId, exercise);
      nextId := nextId + 1;
    }

    /** `updateExercise(id, updates)`. */
    method UpdateExercise(id: Id, updates: ExercisePatch) returns (r: Option<Exercise>)
      requires Valid()
      modifies this`exercises
      ensures Valid()
      ensures r.None? <==> id !in old(exercises.rows)
      ensures r.None? ==> exercises == old(exercises)
      ensures r.Some? ==> (r.value == PatchExercise(old(exercises.rows[id]), updates)
                       && exercises == old(exercises).Put(id, r.value)
                       && exercises.order == old(exercises.order))
    {
      var existing := exercises.Get(id);
      if existing.None? {
        return None;
      }
      var updated := PatchExercise(existing.value, updates);
      KeyedSet(exercises, ExerciseId, nextId, id, updated);
      exercises := exercises.Put(id, updated);
      r := Some(updated);
    }

    /** `deleteExercise(id)`: true iff the id was stored; only that entry goes. */
    method DeleteExercise(id: Id) returns (found: bool)
      requires Valid()
      modifies this`exercises
      ensures Valid()
      ensures found <==> id in old(exercises.rows)
      ensures exercises == old(exercises).Remove(id)
      ensures exercises.rows == old(exercises.rows) - {id}
    {
      found := id in exercises.rows;
      KeyedRemove(exercises, ExerciseId, nextId, id);
      exercises := exercises.Remove(id);
    }

    // ---------------------------------------------------------------- meals

    /** `getMeals(userId)`: the user's meals, newest first. */
    function GetMeals(userId: Id): (r: seq<Meal>)
      reads this
      requires Valid()
      ensures Distinct(r)
      ensures forall m :: m in r <==> m in meals.rows.Values && m.userId == userId
      ensures SortedDesc(r, MealDate)
    {
      KeyedFilterSort(meals, MealId, nextId, MealOf(userId), MealDate);
      SortDesc(Filter(meals.Values(), MealOf(userId)), MealDate)
    }

    /** `getMealsByDate(userId, date)`: the user's meals in date's day window, in insertion order. */
    function GetMealsByDate(userId: Id, date: Time): (r: seq<Meal>)
      reads this
      requires Valid()
      ensures Distinct(r)
      ensures forall m :: m in r <==> (m in meals.rows.Values && m.userId == userId
                                     && StartOfDay(date) <= m.date < StartOfDay(date) + DayMs)
    {
      KeyedFilter(meals, MealId, nextId, MealOn(userId, date));
      Filter(meals.Values(), MealOn(userId, date))
    }

    /** `getMeal(id)`. */
    function GetMeal(id: Id): (r: Option<Meal>)
      reads this
      requires Valid()
      ensures r.Some? <==> id in meals.rows
      ensures r.Some? ==> r.value == meals.rows[id] && r.value.id == id
    {
      meals.Get(id)
    }

    /** `createMeal(insert)`: a fresh id; a falsy total becomes 0. */
    method CreateMeal(insert: InsertMeal, now: Time) returns (meal: Meal)
      requires Valid()
      modifies this`meals, this`nextId
      ensures Valid() && nextId == old(nextId) + 1
      ensures meal.id == old(nextId) && meal.id !in old(meals.rows)
      ensures meal == Meal(meal.id, insert.userId, insert.name, insert.mealType, insert.date,
        Some(IntOr(insert.totalCalories, 0)), Some(RealOr(insert.totalProtein, 0.0)),
        Some(RealOr(insert.totalCarbs, 0.0)), Some(RealOr(insert.totalFat, 0.0)), now)
      ensures meals == old(meals).Put(meal.id, meal)
      ensures meals.Values() == old(meals.Values()) + [meal]
    {
      meal := Meal(nextId, insert.userId, insert.name, insert.mealType, insert.date,
        Some(IntOr(insert.totalCalories, 0)), Some(RealOr(insert.totalProtein, 0.0)),
        Some(RealOr(insert.totalCarbs, 0.0)), Some(RealOr(insert.totalFat, 0.0)), now);
      KeyedGrow(meals, MealId, nextId, meal);
      meals := meals.Put(nextId, meal);
      nextId := nextId + 1;
    }

    /** `updateMeal(id, updates)`. */
    method UpdateMeal(id: Id, updates: MealPatch) returns (r: Option<Meal>)
      requires Valid()
      modifies this`meals
      ensures Valid()
      ensures r.None? <==> id !in old(meals.rows)
      ensures r.None? ==> meals == old(meals)
      ensures r.Some? ==> (r.value == PatchMeal(old(meals.rows[id]), updates)
                       && meals == old(meals).Put(id, r.value)
                       && meals.order == old(meals.order))
    {
      var existing := meals.Get(id);
      if existing.None? {
        return None;
      }
      var updated := PatchMeal(existing.value, updates);
      KeyedSet(meals, MealId, nextId, id, updated);
      meals := meals.Put(id, updated);
      r := Some(updated);
    }

    /** `deleteMeal(id)`: true iff the id was stored; only that entry goes. */
    method DeleteMeal(id: Id) returns (found: bool)
      requires Valid()
      modifies this`meals
      ensures Valid()
      ensures found <==> id in old(meals.rows)
      ensures meals == old(meals).Remove(id)
      ensures meals.rows == old(meals.rows) - {id}
    {
      found := id in meals.rows;
      KeyedRemove(meals, MealId, nextId, id);
      meals := meals.Remove(id);
    }

    // ----------------------------------------------------------- food items

    /** `getFoodItemsByMeal(mealId)`, in insertion order. */
    function GetFoodItemsByMeal(mealId: Id): (r: seq<FoodItem>)
      reads this
      requires Valid()
      ensures Distinct(r)
      ensures forall f :: f in r <==> f in foodItems.rows.Values && f.mealId == mealId
    {
      KeyedFilter(foodItems, FoodItemId, nextId, FoodItemOf(mealId));
      Filter(foodItems.Values(), FoodItemOf(mealId))
    }

    /** `createFoodItem(insert)`: a fresh id; a falsy per-gram protein, carbs or fat becomes 0. */
    method CreateFoodItem(insert: InsertFoodItem) returns (item: FoodItem)
      requires Valid()
      modifies this`foodItems, this`nextId
      ensures Valid() && nextId == old(nextId) + 1
      ensures item.id == old(nextId) && item.id !in old(foodItems.rows)
      ensures item == NewFoodItem(item.id, insert)
      ensures foodItems == old(foodItems).Put(item.id, item)
      ensures foodItems.Values() == old(foodItems.Values()) + [item]
    {
      item := NewFoodItem(nextId, insert);
      KeyedGrow(foodItems, FoodItemId, nextId, item);
      foodItems := foodItems.Put(nextId, item);
      nextId := nextId + 1;
    }

    /** `updateFoodItem(id, updates)`. */
    method UpdateFoodItem(id: Id, updates: FoodItemPatch) returns (r: Option<FoodItem>)
      requires Valid()
      modifies this`foodItems
      ensures Valid()
      ensures r.None? <==> id !in old(foodItems.rows)
      ensures r.None? ==> foodItems == old(foodItems)
      ensures r.Some? ==> (r.value == PatchFoodItem(old(foodItems.rows[id]), updates)
                       && foodItems == old(foodItems).Put(id, r.value)
                       && foodItems.order == old(foodItems.order))
    {
      var existing := foodItems.Get(id);
      if existing.None? {
        return None;
      }
      var updated := PatchFoodItem(existing.value, updates);
      KeyedSet(foodItems, FoodItemId, nextId, id, updated);
      foodItems := foodItems.Put(id, updated);
      r := Some(updated);
    }

    /** `deleteFoodItem(id)`: true iff the id was stored; only that entry goes. */
    method DeleteFoodItem(id: Id) returns (found: bool)
      requires Valid()
      modifies this`foodItems
      ensures Valid()
      ensures found <==> id in old(foodItems.rows)
      ensures foodItems == old(foodItems).Remove(id)
      ensures foodItems.rows == old(foodItems.rows) - {id}
    {
      found := id in foodItems.rows;
      KeyedRemove(foodItems, FoodItemId, nextId, id);
      foodItems := foodItems.Remove(id);
    }

    // ---------------------------------------------------- body measurements

    /** `getBodyMeasurements(userId)`: the user's measurements, newest first. */
    function GetBodyMeasurements(userId: Id): (r: seq<BodyMeasurement>)
      reads this
      requires Valid()
      ensures Distinct(r)
      ensures forall m :: m in r <==> m in bodyMeasurements.rows.Values && m.userId == userId
      ensures SortedDesc(r, BodyMeasurementDate)
    {
      KeyedFilterSort(bodyMeasurements, BodyMeasurementId, nextId, BodyMeasurementOf(userId), BodyMeasurementDate);
      SortDesc(Filter(bodyMeasurements.Values(), BodyMeasurementOf(userId)), BodyMeasurementDate)
    }

    /** `getLatestBodyMeasurement(userId)`: the head of the newest-first list. */
    function GetLatestBodyMeasurement(userId: Id): (r: Option<BodyMeasurement>)
      reads this
      requires Valid()
      ensures r.None? <==> forall m :: m in bodyMeasurements.rows.Values ==> m.userId != userId
      ensures r.Some? ==> r.value in bodyMeasurements.rows.Values && r.value.userId == userId
      ensures r.Some? ==> forall m :: m in bodyMeasurements.rows.Values && m.userId == userId
                                      ==> m.date <= r.value.date
      ensures r.Some? ==> r.value == GetBodyMeasurements(userId)[0]
    {
      var ms := GetBodyMeasurements(userId);
      if |ms| == 0 then None
      else
        assert ms[0] in ms;
        assert forall m :: m in ms ==> exists i :: 0 <= i < |ms| && ms[i] == m;
        Some(ms[0])
    }

    /** `createBodyMeasurement(insert)`: a fresh id; every falsy metric becomes null. */
    method CreateBodyMeasurement(insert: InsertBodyMeasurement, now: Time) returns (m: BodyMeasurement)
      requires Valid()
      modifies this`bodyMeasurements, this`nextId
      ensures Valid() && nextId == old(nextId) + 1
      ensures m.id == old(nextId) && m.id !in old(bodyMeasurements.rows)
      ensures m == BodyMeasurement(m.id, insert.userId, insert.date,
        RealOrNull(insert.weight), RealOrNull(insert.bodyFatPercentage),
        RealOrNull(insert.muscleMass), RealOrNull(insert.waist), RealOrNull(insert.chest),
        RealOrNull(insert.bicep), RealOrNull(insert.thigh), RealOrNull(insert.height), now)
      ensures bodyMeasurements == old(bodyMeasurements).Put(m.id, m)
      ensures bodyMeasurements.Values() == old(bodyMeasurements.Values()) + [m]
    {
      m := BodyMeasurement(nextId, insert.userId, insert.date,
        RealOrNull(insert.weight), RealOrNull(insert.bodyFatPercentage),
        RealOrNull(insert.muscleMass), RealOrNull(insert.waist), RealOrNull(insert.chest),
        RealOrNull(insert.bicep), RealOrNull(insert.thigh), RealOrNull(insert.height), now);
      KeyedGrow(bodyMeasurements, BodyMeasurementId, nextId, m);
      bodyMeasurements := bodyMeasurements.Put(nextId, m);
      nextId := nextId + 1;
    }

    /** `updateBodyMeasurement(id, updates)`. */
    method UpdateBodyMeasurement(id: Id, updates: BodyMeasurementPatch) returns (r: Option<BodyMeasurement>)
      requires Valid()
      modifies this`bodyMeasurements
      ensures Valid()
      ensures r.None? <==> id !in old(bodyMeasurements.rows)
      ensures r.None? ==> bodyMeasurements == old(bodyMeasurements)
      ensures r.Some? ==> (r.value == PatchBodyMeasurement(old(bodyMeasurements.rows[id]), updates)
                       && bodyMeasurements == old(bodyMeasurements).Put(id, r.value)
                       && bodyMeasurements.order == old(bodyMeasurements.order))
    {
      var existing := bodyMeasurements.Get(id);
      if existing.None? {
        return None;
      }
      var updated := PatchBodyMeasurement(existing.value, updates);
      KeyedSet(bodyMeasurements, BodyMeasurementId, nextId, id, updated);
      bodyMeasurements := bodyMeasurements.Put(id, updated);
      r := Some(updated);
    }

    /** `deleteBodyMeasurement(id)`: true iff the id was stored; only that entry goes. */
    method DeleteBodyMeasurement(id: Id) returns (found: bool)
      requires Valid()
      modifies this`bodyMeasurements
      ensures Valid()
      ensures found <==> id in old(bodyMeasurements.rows)
      ensures bodyMeasurements == old(bodyMeasurements).Remove(id)
      ensures bodyMeasurements.rows == old(bodyMeasurements.rows) - {id}
    {
      found := id in bodyMeasurements.rows;
      KeyedRemove(bodyMeasurements, BodyMeasurementId, nextId, id);
      bodyMeasurements := bodyMeasurements.Remove(id);
    }

    // --------------------------------------------------------- water intake

    /** `getWaterIntake(userId, date)`: the user's intakes in date's day window, in insertion order. */
    function GetWaterIntake(userId: Id, date: Time): (r: seq<WaterIntake>)
      reads this
      requires Valid()
      ensures Distinct(r)
      ensures forall w :: w in r <==> (w in waterIntakes.rows.Values && w.userId == userId
                                     && StartOfDay(date) <= w.date < StartOfDay(date) + DayMs)
    {
      KeyedFilter(waterIntakes, WaterIntakeId, nextId, WaterIntakeOn(userId, date));
      Filter(waterIntakes.Values(), WaterIntakeOn(userId, date))
    }

    /** `createWaterIntake(insert)`: a fresh id, no defaults. */
    method CreateWaterIntake(insert: InsertWaterIntake, now: Time) returns (intake: WaterIntake)
      requires Valid()
      modifies this`waterIntakes, this`nextId
      ensures Valid() && nextId == old(nextId) + 1
      ensures intake.id == old(nextId) && intake.id !in old(waterIntakes.rows)
      ensures intake == WaterIntake(intake.id, insert.userId, insert.date, insert.amount, now)
      ensures waterIntakes == old(waterIntakes).Put(intake.id, intake)
      ensures waterIntakes.Values() == old(waterIntakes.Values()) + [intake]
    {
      intake := WaterIntake(nextId, insert.userId, insert.date, insert.amount, now);
      KeyedGrow(waterIntakes, WaterIntakeId, nextId, intake);
      waterIntakes := waterIntakes.Put(nextId, intake);
      nextId := nextId + 1;
    }

    /** `updateWaterIntake(id, updates)`. */
    method UpdateWaterIntake(id: Id, updates: WaterIntakePatch) returns (r: Option<WaterIntake>)
      requires Valid()
      modifies this`waterIntakes
      ensures Valid()
      ensures r.None? <==> id !in old(waterIntakes.rows)
      ensures r.None? ==> waterIntakes == old(waterIntakes)
      ensures r.Some? ==> (r.value == PatchWaterIntake(old(waterIntakes.rows[id]), updates)
                       && waterIntakes == old(waterIntakes).Put(id, r.value)
                       && waterIntakes.order == old(waterIntakes.order))
    {
      var existing := waterIntakes.Get(id);
      if existing.None? {
        return None;
      }
      var updated := PatchWaterIntake(existing.value, updates);
      KeyedSet(waterIntakes, WaterIntakeId, nextId, id, updated);
      waterIntakes := waterIntakes.Put(id, updated);
      r := Some(updated);
    }
  }

  /** Ties in `getWorkouts` keep insertion order: the sort is stable. */
  lemma GetWorkoutsStable(s: MemStorage, userId: Id, d: Time)
    requires s.Valid()
    ensures WithKey(s.GetWorkouts(userId), WorkoutDate, d)
         == WithKey(Filter(s.workouts.Values(), WorkoutOf(userId)), WorkoutDate, d)
  {
    SortDescStable(Filter(s.workouts.Values(), WorkoutOf(userId)), WorkoutDate, d);
  }

  /** Ties in `getMeals` keep insertion order. */
  lemma GetMealsStable(s: MemStorage, userId: Id, d: Time)
    requires s.Valid()
    ensures WithKey(s.GetMeals(userId), MealDate, d)
         == WithKey(Filter(s.meals.Values(), MealOf(userId)), MealDate, d)
  {
    SortDescStable(Filter(s.meals.Values(), MealOf(userId)), MealDate, d);
  }

  /**
   * Of the user's measurements with the latest date, `getLatestBodyMeasurement`
   * returns the one stored first.
   */
  lemma LatestIsFirstStored(s: MemStorage, userId: Id)
    requires s.Valid() && s.GetLatestBodyMeasurement(userId).Some?
    ensures var m := s.GetLatestBodyMeasurement(userId).value;
            var tied := WithKey(Filter(s.bodyMeasurements.Values(), BodyMeasurementOf(userId)), BodyMeasurementDate, m.date);
            |tied| > 0 && tied[0] == m
  {
    var ms := s.GetBodyMeasurements(userId);
    var m := ms[0];
    GetBodyMeasurementsStable(s, userId, m.date);
    assert WithKey(ms, BodyMeasurementDate, m.date) == [m] + WithKey(ms[1..], BodyMeasurementDate, m.date);
  }

  /** Ties in `getBodyMeasurements` keep insertion order. */
  lemma GetBodyMeasurementsStable(s: MemStorage, userId: Id, d: Time)
    requires s.Valid()
    ensures WithKey(s.GetBodyMeasurements(userId), BodyMeasurementDate, d)
         == WithKey(Filter(s.bodyMeasurements.Values(), BodyMeasurementOf(userId)), BodyMeasurementDate, d)
  {
    SortDescStable(Filter(s.bodyMeasurements.Values(), BodyMeasurementOf(userId)), BodyMeasurementDate, d);
  }
}
