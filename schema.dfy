/**
 * The seven record shapes of the store, their insert shapes (a record without
 * the generated `id` and `createdAt`), and their `Partial<Record>` updates.
 * A nullable column is an `Option`; the columns named `type` are renamed
 * `workoutType` and `mealType` because `type` is a Dafny keyword.
 */
module Schema {
  import opened Wrappers
  import opened Dates

  /** A record id; the store draws fresh ones in place of `randomUUID()`. */
  type Id = nat

  /** The defaults a new user's falsy profile fields are replaced with. */
  const DefaultDietaryPreference: string := "omnivore"
  const DefaultCalorieGoal: int := 2200
  const DefaultProteinGoal: int := 120
  const DefaultCarbGoal: int := 250
  const DefaultFatGoal: int := 75

  datatype User = User(
    id: Id, username: string, email: string, password: string,
    firstName: string, lastName: string,
    dietaryPreference: Option<string>,
    dailyCalorieGoal: Option<int>, dailyProteinGoal: Option<int>,
    dailyCarbGoal: Option<int>, dailyFatGoal: Option<int>,
    createdAt: Time)

  datatype InsertUser = InsertUser(
    username: string, email: string, password: string,
    firstName: string, lastName: string,
    dietaryPreference: Option<string>,
    dailyCalorieGoal: Option<int>, dailyProteinGoal: Option<int>,
    dailyCarbGoal: Option<int>, dailyFatGoal: Option<int>)

  datatype UserPatch = UserPatch(
    username: Patch<string>, email: Patch<string>, password: Patch<string>,
    firstName: Patch<string>, lastName: Patch<string>,
    dietaryPreference: Patch<Option<string>>,
    dailyCalorieGoal: Patch<Option<int>>, dailyProteinGoal: Patch<Option<int>>,
    dailyCarbGoal: Patch<Option<int>>, dailyFatGoal: Patch<Option<int>>)

  /** `{ ...user, ...p }`. */
  function PatchUser(u: User, p: UserPatch): User
  {
    User(u.id, Over(p.username, u.username), Over(p.email, u.email),
      Over(p.password, u.password), Over(p.firstName, u.firstName),
      Over(p.lastName, u.lastName), Over(p.dietaryPreference, u.dietaryPreference),
      Over(p.dailyCalorieGoal, u.dailyCalorieGoal), Over(p.dailyProteinGoal, u.dailyProteinGoal),
      Over(p.dailyCarbGoal, u.dailyCarbGoal), Over(p.dailyFatGoal, u.dailyFatGoal),
      u.createdAt)
  }

  datatype Workout = Workout(
    id: Id, userId: Id, name: string, date: Time,
    duration: Option<int>, caloriesBurned: Option<int>,
    workoutType: string, notes: Option<string>, createdAt: Time)

  /** The test `w => new Date(w.date) >= t` that the weekly and monthly counts filter by. */
  function OnOrAfter(t: Time): Workout -> bool { (w: Workout) => w.date >= t }

  datatype InsertWorkout = InsertWorkout(
    userId: Id, name: string, date: Time,
    duration: Option<int>, caloriesBurned: Option<int>,
    workoutType: string, notes: Option<string>)

  datatype WorkoutPatch = WorkoutPatch(
    userId: Patch<Id>, name: Patch<string>, date: Patch<Time>,
    duration: Patch<Option<int>>, caloriesBurned: Patch<Option<int>>,
    workoutType: Patch<string>, notes: Patch<Option<string>>)

  /** `{ ...workout, ...p }`. */
  function PatchWorkout(w: Workout, p: WorkoutPatch): Workout
  {
    Workout(w.id, Over(p.userId, w.userId), Over(p.name, w.name), Over(p.date, w.date),
      Over(p.duration, w.duration), Over(p.caloriesBurned, w.caloriesBurned),
      Over(p.workoutType, w.workoutType), Over(p.notes, w.notes), w.createdAt)
  }

  datatype Exercise = Exercise(
    id: Id, workoutId: Id, name: string,
    sets: Option<int>, reps: Option<int>,
    weight: Option<real>, distance: Option<real>, duration: Option<int>)

  datatype InsertExercise = InsertExercise(
    workoutId: Id, name: string,
    sets: Option<int>, reps: Option<int>,
    weight: Option<real>, distance: Option<real>, duration: Option<int>)

  datatype ExercisePatch = ExercisePatch(
    workoutId: Patch<Id>, name: Patch<string>,
    sets: Patch<Option<int>>, reps: Patch<Option<int>>,
    weight: Patch<Option<real>>, distance: Patch<Option<real>>, duration: Patch<Option<int>>)

  /** `{ ...exercise, ...p }`. */
  function PatchExercise(e: Exercise, p: ExercisePatch): Exercise
  {
    Exercise(e.id, Over(p.workoutId, e.workoutId), Over(p.name, e.name),
      Over(p.sets, e.sets), Over(p.reps, e.reps), Over(p.weight, e.weight),
      Over(p.distance, e.distance), Over(p.duration, e.duration))
  }

  datatype Meal = Meal(
    id: Id, userId: Id, name: string, mealType: string, date: Time,
    totalCalories: Option<int>, totalProtein: Option<real>,
    totalCarbs: Option<real>, totalFat: Option<real>, createdAt: Time)

  datatype InsertMeal = InsertMeal(
    userId: Id, name: string, mealType: string, date: Time,
    totalCalories: Option<int>, totalProtein: Option<real>,
    totalCarbs: Option<real>, totalFat: Option<real>)

  datatype MealPatch = MealPatch(
    userId: Patch<Id>, name: Patch<string>, mealType: Patch<string>, date: Patch<Time>,
    totalCalories: Patch<Option<int>>, totalProtein: Patch<Option<real>>,
    totalCarbs: Patch<Option<real>>, totalFat: Patch<Option<real>>)

  /** `{ ...meal, ...p }`. */
  function PatchMeal(m: Meal, p: MealPatch): Meal
  {
    Meal(m.id, Over(p.userId, m.userId), Over(p.name, m.name), Over(p.mealType, m.mealType),
      Over(p.date, m.date), Over(p.totalCalories, m.totalCalories),
      Over(p.totalProtein, m.totalProtein), Over(p.totalCarbs, m.totalCarbs),
      Over(p.totalFat, m.totalFat), m.createdAt)
  }

  datatype FoodItem = FoodItem(
    id: Id, mealId: Id, name: string, quantity: real, caloriesPerGram: real,
    proteinPerGram: Option<real>, carbsPerGram: Option<real>, fatPerGram: Option<real>)

  datatype InsertFoodItem = InsertFoodItem(
    mealId: Id, name: string, quantity: real, caloriesPerGram: real,
    proteinPerGram: Option<real>, carbsPerGram: Option<real>, fatPerGram: Option<real>)

  datatype FoodItemPatch = FoodItemPatch(
    mealId: Patch<Id>, name: Patch<string>, quantity: Patch<real>, caloriesPerGram: Patch<real>,
    proteinPerGram: Patch<Option<real>>, carbsPerGram: Patch<Option<real>>,
    fatPerGram: Patch<Option<real>>)

  /** `{ ...foodItem, ...p }`. */
  function PatchFoodItem(f: FoodItem, p: FoodItemPatch): FoodItem
  {
    FoodItem(f.id, Over(p.mealId, f.mealId), Over(p.name, f.name),
      Over(p.quantity, f.quantity), Over(p.caloriesPerGram, f.caloriesPerGram),
      Over(p.proteinPerGram, f.proteinPerGram), Over(p.carbsPerGram, f.carbsPerGram),
      Over(p.fatPerGram, f.fatPerGram))
  }

  datatype BodyMeasurement = BodyMeasurement(
    id: Id, userId: Id, date: Time,
    weight: Option<real>, bodyFatPercentage: Option<real>, muscleMass: Option<real>,
    waist: Option<real>, chest: Option<real>, bicep: Option<real>,
    thigh: Option<real>, height: Option<real>, createdAt: Time)

  datatype InsertBodyMeasurement = InsertBodyMeasurement(
    userId: Id, date: Time,
    weight: Option<real>, bodyFatPercentage: Option<real>, muscleMass: Option<real>,
    waist: Option<real>, chest: Option<real>, bicep: Option<real>,
    thigh: Option<real>, height: Option<real>)

  datatype BodyMeasurementPatch = BodyMeasurementPatch(
    userId: Patch<Id>, date: Patch<Time>,
    weight: Patch<Option<real>>, bodyFatPercentage: Patch<Option<real>>,
    muscleMass: Patch<Option<real>>, waist: Patch<Option<real>>, chest: Patch<Option<real>>,
    bicep: Patch<Option<real>>, thigh: Patch<Option<real>>, height: Patch<Option<real>>)

  /** `{ ...measurement, ...p }`. */
  function PatchBodyMeasurement(m: BodyMeasurement, p: BodyMeasurementPatch): BodyMeasurement
  {
    BodyMeasurement(m.id, Over(p.userId, m.userId), Over(p.date, m.date),
      Over(p.weight, m.weight), Over(p.bodyFatPercentage, m.bodyFatPercentage),
      Over(p.muscleMass, m.muscleMass), Over(p.waist, m.waist), Over(p.chest, m.chest),
      Over(p.bicep, m.bicep), Over(p.thigh, m.thigh), Over(p.height, m.height), m.createdAt)
  }

  datatype WaterIntake = WaterIntake(id: Id, userId: Id, date: Time, amount: real, createdAt: Time)

  datatype InsertWaterIntake = InsertWaterIntake(userId: Id, date: Time, amount: real)

  datatype WaterIntakePatch = WaterIntakePatch(userId: Patch<Id>, date: Patch<Time>, amount: Patch<real>)

  /** `{ ...intake, ...p }`. */
  function PatchWaterIntake(w: WaterIntake, p: WaterIntakePatch): WaterIntake
  {
    WaterIntake(w.id, Over(p.userId, w.userId), Over(p.date, w.date), Over(p.amount, w.amount), w.createdAt)
  }
}
