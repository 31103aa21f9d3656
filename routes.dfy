/**
 * The server handlers that do more than pass a request through to the store:
 * account checks (register, login, profile), meal creation with computed
 * totals, the ownership-checked cascading workout delete, and the dashboard
 * summary. Request parsing, tokens and password hashing are parameters or
 * left out; each handler's answer is a value of `Reply`.
 */
module Routes {
  import opened Wrappers
  import opened Numbers
  import opened Dates
  import opened Seqs
  import opened Tables
  import opened Schema
  import opened Storage

  /** The error answers the handlers give (status 400, 401 and 404). */
  datatype Failure = UserExists | InvalidCredentials | UserNotFound | WorkoutNotFound

  datatype Reply<+T> = Ok(value: T) | Fail(failure: Failure)

  /** The user summary sent back by register and login (next to the token). */
  datatype Account = Account(id: Id, email: string, username: string, firstName: string, lastName: string)

  /** The profile sent back by GET and PUT /api/user/profile. */
  datatype Profile = Profile(
    id: Id, email: string, username: string, firstName: string, lastName: string,
    dietaryPreference: Option<string>,
    dailyCalorieGoal: Option<int>, dailyProteinGoal: Option<int>,
    dailyCarbGoal: Option<int>, dailyFatGoal: Option<int>)

  function AccountOf(u: User): Account
  {
    Account(u.id, u.email, u.username, u.firstName, u.lastName)
  }

  function ProfileOf(u: User): Profile
  {
    Profile(u.id, u.email, u.username, u.firstName, u.lastName, u.dietaryPreference,
      u.dailyCalorieGoal, u.dailyProteinGoal, u.dailyCarbGoal, u.dailyFatGoal)
  }

  /** No two stored users share an email: what the register check aims at. */
  ghost predicate EmailsUnique(s: MemStorage)
    reads s
  {
    forall j, k :: j in s.users.rows && k in s.users.rows && s.users.rows[j].email == s.users.rows[k].email ==> j == k
  }

  // ------------------------------------------------------------- register

  /**
   * POST /api/auth/register: refuse an email that is already stored, else
   * store the user with the hashed password. `hash` stands for bcrypt.
   */
  method Register(store: MemStorage, insert: InsertUser, hash: string -> string, now: Time)
    returns (r: Reply<Account>)
    requires store.Valid()
    modifies store`users, store`nextId
    ensures store.Valid()
    ensures r.Fail? <==> exists u :: u in old(store.users.rows.Values) && u.email == insert.email
    ensures r.Fail? ==> r.failure == UserExists && store.users == old(store.users) && store.nextId == old(store.nextId)
    ensures r.Ok? ==> (var id := old(store.nextId);
                       && id !in old(store.users.rows) && id in store.users.rows
                       && store.users.rows == old(store.users.rows)[id := store.users.rows[id]]
                       && store.users.rows[id].password == hash(insert.password)
                       && r.value == AccountOf(store.users.rows[id])
                       && r.value == Account(id, insert.email, insert.username, insert.firstName, insert.lastName))
    ensures old(EmailsUnique(store)) ==> EmailsUnique(store)
  {
    var existing := store.GetUserByEmail(insert.email);
    if existing.Some? {
      return Fail(UserExists);
    }
    var user := store.CreateUser(insert.(password := hash(insert.password)), now);
    r := Ok(AccountOf(user));
    assert forall k :: k in old(store.users.rows) ==> old(store.users.rows)[k] in old(store.users.rows.Values);
  }

  // ---------------------------------------------------------------- login

  /**
   * POST /api/auth/login: the first user with the email, if the password
   * matches its stored hash. `matches` stands for `bcrypt.compare`.
   */
  function Login(store: MemStorage, email: string, password: string, matches: (string, string) -> bool)
    : (r: Reply<Account>)
    reads store
    requires store.Valid()
    ensures r.Fail? ==> r.failure == InvalidCredentials
    ensures r.Ok? ==> exists u :: u in store.users.rows.Values && u.email == email
                              && matches(password, u.password) && r.value == AccountOf(u)
    ensures (forall u :: u in store.users.rows.Values ==> u.email != email) ==> r.Fail?
    ensures EmailsUnique(store) ==>
      (r.Ok? <==> exists u :: u in store.users.rows.Values && u.email == email && matches(password, u.password))
    ensures r.Ok? ==> exists i :: 0 <= i < |store.users.Values()| && store.users.Values()[i].email == email
                               && matches(password, store.users.Values()[i].password)
                               && r.value == AccountOf(store.users.Values()[i])
                               && forall j :: 0 <= j < i ==> store.users.Values()[j].email != email
  {
    var found := store.GetUserByEmail(email);
    if found.None? then Fail(InvalidCredentials)
    else if !matches(password, found.value.password) then Fail(InvalidCredentials)
    else Ok(AccountOf(found.value))
  }

  /** With unique emails, the only way to log in is with the password of the user holding the email. */
  lemma LoginUnique(store: MemStorage, email: string, password: string, matches: (string, string) -> bool, u: User)
    requires store.Valid() && EmailsUnique(store)
    requires u in store.users.rows.Values && u.email == email
    ensures Login(store, email, password, matches).Ok? <==> matches(password, u.password)
    ensures Login(store, email, password, matches).Ok? ==> Login(store, email, password, matches).value == AccountOf(u)
  {
    var found := store.GetUserByEmail(email);
    assert found.Some?;
    var v := found.value;
    var j :| j in store.users.rows && store.users.rows[j] == u;
    var k :| k in store.users.rows && store.users.rows[k] == v;
    assert j == k;
  }

  // -------------------------------------------------------------- profile

  /** GET /api/user/profile: the stored profile, or not found. */
  function GetProfile(store: MemStorage, userId: Id): (r: Reply<Profile>)
    reads store
    requires store.Valid()
    ensures r.Fail? <==> userId !in store.users.rows
    ensures r.Fail? ==> r.failure == UserNotFound
    ensures r.Ok? ==> r.value == ProfileOf(store.users.rows[userId]) && r.value.id == userId
  {
    match store.GetUser(userId)
    case None => Fail(UserNotFound)
    case Some(u) => Ok(ProfileOf(u))
  }

  /**
   * The body of PUT /api/user/profile. Every one of the nine fields is
   * written, so a goal or preference left out of the body is stored as
   * missing (None).
   */
  datatype ProfileBody = ProfileBody(
    firstName: string, lastName: string, email: string, username: string,
    dietaryPreference: Option<string>,
    dailyCalorieGoal: Option<int>, dailyProteinGoal: Option<int>,
    dailyCarbGoal: Option<int>, dailyFatGoal: Option<int>)

  function ProfilePatch(b: ProfileBody): UserPatch
  {
    UserPatch(Put(b.username), Put(b.email), Keep, Put(b.firstName), Put(b.lastName),
      Put(b.dietaryPreference), Put(b.dailyCalorieGoal), Put(b.dailyProteinGoal),
      Put(b.dailyCarbGoal), Put(b.dailyFatGoal))
  }

  /** PUT /api/user/profile: overwrite the nine profile fields, keeping id, password and creation time. */
  method UpdateProfile(store: MemStorage, userId: Id, body: ProfileBody) returns (r: Reply<Profile>)
    requires store.Valid()
    modifies store`users
    ensures store.Valid()
    ensures r.Fail? <==> userId !in old(store.users.rows)
    ensures r.Fail? ==> r.failure == UserNotFound && store.users == old(store.users)
    ensures r.Ok? ==> userId in store.users.rows && userId in old(store.users.rows)
    ensures r.Ok? ==> (var u, was := store.users.rows[userId], old(store.users.rows[userId]);
                       && store.users.rows == old(store.users.rows)[userId := u]
                       && u == User(userId, body.username, body.email, was.password,
                                    body.firstName, body.lastName, body.dietaryPreference,
                                    body.dailyCalorieGoal, body.dailyProteinGoal,
                                    body.dailyCarbGoal, body.dailyFatGoal, was.createdAt)
                       && r.value == ProfileOf(u))
    ensures store.users.order == old(store.users.order)
  {
    var updated := store.UpdateUser(userId, ProfilePatch(body));
    if updated.None? {
      return Fail(UserNotFound);
    }
    r := Ok(ProfileOf(updated.value));
  }

  // ----------------------------------------------------------- meal totals

  /** Each food item's share of the meal: quantity (grams) times the per-gram value, 0 when missing. */
  function ItemCalories(f: FoodItem): real { f.quantity * f.caloriesPerGram }
  function ItemProtein(f: FoodItem): real { f.quantity * RealOrZero(f.proteinPerGram) }
  function ItemCarbs(f: FoodItem): real { f.quantity * RealOrZero(f.carbsPerGram) }
  function ItemFat(f: FoodItem): real { f.quantity * RealOrZero(f.fatPerGram) }

  datatype Totals = Totals(calories: int, protein: real, carbs: real, fat: real)

  /** The meal totals computed from its food items: whole calories, macros to one decimal. */
  function MealTotals(items: seq<FoodItem>): (t: Totals)
    ensures Sum(items, ItemCalories) - 0.5 < t.calories as real <= Sum(items, ItemCalories) + 0.5
    ensures RoundedTo1(t.protein, Sum(items, ItemProtein))
    ensures RoundedTo1(t.carbs, Sum(items, ItemCarbs))
    ensures RoundedTo1(t.fat, Sum(items, ItemFat))
    ensures items == [] ==> t == Totals(0, 0.0, 0.0, 0.0)
  {
    Totals(Round(Sum(items, ItemCalories)), Round1(Sum(items, ItemProtein)),
      Round1(Sum(items, ItemCarbs)), Round1(Sum(items, ItemFat)))
  }

  /** Items with non-negative amounts give non-negative totals. */
  lemma MealTotalsNonNegative(items: seq<FoodItem>)
    requires forall f :: f in items ==> (ItemCalories(f) >= 0.0 && ItemProtein(f) >= 0.0
                                     && ItemCarbs(f) >= 0.0 && ItemFat(f) >= 0.0)
    ensures MealTotals(items).calories >= 0
    ensures MealTotals(items).protein >= 0.0 && MealTotals(items).carbs >= 0.0 && MealTotals(items).fat >= 0.0
  {
    SumNonNegative(items, ItemCalories);
    SumNonNegative(items, ItemProtein);
    SumNonNegative(items, ItemCarbs);
    SumNonNegative(items, ItemFat);
  }

  /** 100 g at 1.65 kcal and 0.31 g protein per gram: 165 kcal and 31.0 g protein. */
  lemma MealTotalsExample(f: FoodItem)
    requires f.quantity == 100.0 && f.caloriesPerGram == 1.65 && f.proteinPerGram == Some(0.31)
    requires f.carbsPerGram == None && f.fatPerGram == Some(0.036)
    ensures MealTotals([f]) == Totals(165, 31.0, 0.0, 3.6)
  {
    assert Sum([f], ItemCalories) == 165.0;
    assert Sum([f], ItemProtein) == 31.0;
    assert Sum([f], ItemCarbs) == 0.0;
    assert Sum([f], ItemFat) == 3.6;
    RoundUnique(165.0, 165);
    RoundUnique(310.0, 310);
    RoundUnique(36.0, 36);
  }

  /** The patch POST /api/meals applies once the items are stored. */
  function TotalsPatch(t: Totals): (p: MealPatch)
    ensures forall m :: PatchMeal(m, p) == m.(totalCalories := Some(t.calories), totalProtein := Some(t.protein),
                                            totalCarbs := Some(t.carbs), totalFat := Some(t.fat))
  {
    MealPatch(Keep, Keep, Keep, Keep, Put(Some(t.calories)), Put(Some(t.protein)),
      Put(Some(t.carbs)), Put(Some(t.fat)))
  }

  /** `items` are the first |items| of `fs` stored under `mealId` with ids counting up from `first`. */
  ghost predicate Stamped(items: seq<FoodItem>, fs: seq<InsertFoodItem>, mealId: Id, first: Id)
  {
    |items| <= |fs| && forall j :: 0 <= j < |items| ==> items[j] == NewFoodItem(first + j, fs[j].(mealId := mealId))
  }

  lemma StampedSnoc(items: seq<FoodItem>, item: FoodItem, fs: seq<InsertFoodItem>, mealId: Id, first: Id)
    requires Stamped(items, fs, mealId, first) && |items| < |fs|
    requires item == NewFoodItem(first + |items|, fs[|items|].(mealId := mealId))
    ensures Stamped(items + [item], fs, mealId, first)
  {
  }

  /** Stores each food item of the request body, in order, under `mealId`. */
  method StoreFoodItems(store: MemStorage, mealId: Id, fs: seq<InsertFoodItem>) returns (items: seq<FoodItem>)
    requires store.Valid()
    modifies store`foodItems, store`nextId
    ensures store.Valid()
    ensures |items| == |fs| && store.nextId == old(store.nextId) + |fs|
    ensures forall i :: 0 <= i < |fs| ==> items[i] == NewFoodItem(old(store.nextId) + i, fs[i].(mealId := mealId))
    ensures store.foodItems.Values() == old(store.foodItems.Values()) + items
  {
    ghost var before := store.foodItems.Values();
    ghost var first := store.nextId;
    items := [];
    var i := 0;
    while i < |fs|
      invariant 0 <= i <= |fs| && |items| == i
      invariant store.Valid()
      invariant store.nextId == first + i
      invariant store.foodItems.Values() == before + items
      invariant Stamped(items, fs, mealId, first)
    {
      var item := store.CreateFoodItem(fs[i].(mealId := mealId));
      AppendAssoc(before, items, [item]);
      StampedSnoc(items, item, fs, mealId, first);
      items := items + [item];
      i := i + 1;
    }
  }

  /** Stores the food items under a stored meal, then overwrites the meal's totals with theirs. */
  method AttachFoodItems(store: MemStorage, meal: Meal, fs: seq<InsertFoodItem>) returns (updated: Meal, items: seq<FoodItem>)
    requires store.Valid() && meal.id in store.meals.rows && store.meals.rows[meal.id] == meal
    modifies store`meals, store`foodItems, store`nextId
    ensures store.Valid()
    ensures |items| == |fs| && store.nextId == old(store.nextId) + |fs|
    ensures forall i :: 0 <= i < |fs| ==> items[i] == NewFoodItem(old(store.nextId) + i, fs[i].(mealId := meal.id))
    ensures store.foodItems.Values() == old(store.foodItems.Values()) + items
    ensures updated == (var t := MealTotals(items);
                        meal.(totalCalories := Some(t.calories), totalProtein := Some(t.protein),
                              totalCarbs := Some(t.carbs), totalFat := Some(t.fat)))
    ensures store.meals == old(store.meals).Put(meal.id, updated)
  {
    items := StoreFoodItems(store, meal.id, fs);
    var r := store.UpdateMeal(meal.id, TotalsPatch(MealTotals(items)));
    updated := r.value;
  }

  /**
   * POST /api/meals: store the meal; when the body carries a list of food
   * items (possibly empty), store each under the new meal and overwrite the
   * meal's totals with the ones computed from the stored items.
   */
  method CreateMealRoute(store: MemStorage, insert: InsertMeal, foods: Option<seq<InsertFoodItem>>, now: Time)
    returns (meal: Meal, items: seq<FoodItem>)
    requires store.Valid()
    modifies store`meals, store`foodItems, store`nextId
    ensures store.Valid()
    ensures meal.id == old(store.nextId) && meal.id !in old(store.meals.rows)
    ensures store.meals == old(store.meals).Put(meal.id, meal)
    ensures store.meals.Values() == old(store.meals.Values()) + [meal]
    ensures meal.userId == insert.userId && meal.name == insert.name && meal.mealType == insert.mealType
    ensures meal.date == insert.date && meal.createdAt == now
    ensures foods.None? ==> items == []
    ensures foods.None? ==> (meal.totalCalories == Some(IntOr(insert.totalCalories, 0))
                          && meal.totalProtein == Some(RealOr(insert.totalProtein, 0.0))
                          && meal.totalCarbs == Some(RealOr(insert.totalCarbs, 0.0))
                          && meal.totalFat == Some(RealOr(insert.totalFat, 0.0)))
    ensures foods.Some? ==> |items| == |foods.value|
    ensures foods.Some? ==> forall i :: 0 <= i < |items| ==>
              items[i] == NewFoodItem(meal.id + 1 + i, foods.value[i].(mealId := meal.id))
    ensures foods.Some? ==> (var t := MealTotals(items);
              meal.totalCalories == Some(t.calories) && meal.totalProtein == Some(t.protein)
              && meal.totalCarbs == Some(t.carbs) && meal.totalFat == Some(t.fat))
    ensures store.foodItems.Values() == old(store.foodItems.Values()) + items
    ensures store.nextId == old(store.nextId) + 1 + |items|
  {
    ghost var mealsBefore := store.meals;
    meal := store.CreateMeal(insert, now);
    items := [];
    if foods.Some? {
      ghost var created := meal;
      meal, items := AttachFoodItems(store, meal, foods.value);
      PutTwice(mealsBefore, meal.id, created, meal);
    }
    KeyedGrow(mealsBefore, MealId, meal.id, meal);
  }

  // ---------------------------------------------------- workout deletion

  /** The exercises table after removing every exercise of `workoutId`. */
  ghost predicate ExercisesOfRemoved(before: map<Id, Exercise>, after: map<Id, Exercise>, workoutId: Id)
  {
    && (forall k :: k in after ==> k in before && before[k].workoutId != workoutId && after[k] == before[k])
    && (forall k :: k in before && before[k].workoutId != workoutId ==> k in after)
  }

  /**
   * DELETE /api/workouts/:id: not found unless the workout exists and
   * belongs to the requester; otherwise its exercises go first, then the
   * workout, and nothing else changes.
   */
  method DeleteWorkoutRoute(store: MemStorage, requester: Id, id: Id) returns (r: Reply<()>)
    requires store.Valid()
    modifies store`exercises, store`workouts
    ensures store.Valid()
    ensures r.Fail? <==> (id !in old(store.workouts.rows) || old(store.workouts.rows[id]).userId != requester)
    ensures r.Fail? ==> (r.failure == WorkoutNotFound
                      && store.workouts == old(store.workouts) && store.exercises == old(store.exercises))
    ensures r.Ok? ==> store.workouts == old(store.workouts).Remove(id)
    ensures r.Ok? ==> store.workouts.rows == old(store.workouts.rows) - {id}
    ensures r.Ok? ==> ExercisesOfRemoved(old(store.exercises.rows), store.exercises.rows, id)
  {
    var workout := store.GetWorkout(id);
    if workout.None? || workout.value.userId != requester {
      return Fail(WorkoutNotFound);
    }
    var es := store.GetExercisesByWorkout(id);
    ghost var before := store.exercises.rows;
    ghost var gone := DeleteExercises(store, es);
    var _ := store.DeleteWorkout(id);
    r := Ok(());
    CascadeRemovesExercises(before, es, gone, id);
  }

  /** The ids of `es[..i+1]` are those of `es[..i]` and the id of `es[i]`. */
  lemma IdsSnoc(es: seq<Exercise>, i: nat, gone: set<Id>)
    requires i < |es|
    requires forall k :: k in gone <==> exists j :: 0 <= j < i && es[j].id == k
    ensures forall k :: k in gone + {es[i].id} <==> exists j :: 0 <= j < i + 1 && es[j].id == k
  {
  }

  /** Deletes the listed exercises one by one. */
  method DeleteExercises(store: MemStorage, es: seq<Exercise>) returns (ghost gone: set<Id>)
    requires store.Valid()
    modifies store`exercises
    ensures store.Valid()
    ensures forall k :: k in gone <==> exists j :: 0 <= j < |es| && es[j].id == k
    ensures store.exercises.rows == old(store.exercises.rows) - gone
  {
    gone := {};
    var i := 0;
    while i < |es|
      invariant 0 <= i <= |es|
      invariant store.Valid()
      invariant forall k :: k in gone <==> exists j :: 0 <= j < i && es[j].id == k
      invariant store.exercises.rows == old(store.exercises.rows) - gone
    {
      var _ := store.DeleteExercise(es[i].id);
      MinusUnion(old(store.exercises.rows), gone, {es[i].id});
      IdsSnoc(es, i, gone);
      gone := gone + {es[i].id};
      i := i + 1;
    }
  }

  /** Removing the ids of exactly the exercises of `workoutId` leaves the rest of a keyed table untouched. */
  lemma CascadeRemovesExercises(before: map<Id, Exercise>, es: seq<Exercise>, gone: set<Id>, workoutId: Id)
    requires forall k :: k in before ==> before[k].id == k
    requires forall e :: e in es <==> e in before.Values && e.workoutId == workoutId
    requires forall k :: k in gone <==> exists j :: 0 <= j < |es| && es[j].id == k
    ensures ExercisesOfRemoved(before, before - gone, workoutId)
  {
    forall k | k in before
      ensures k in gone <==> before[k].workoutId == workoutId
    {
      if before[k].workoutId == workoutId {
        assert before[k] in before.Values;
        var j :| 0 <= j < |es| && es[j] == before[k];
        assert es[j].id == k;
      }
      if k in gone {
        var j :| 0 <= j < |es| && es[j].id == k;
        assert es[j] in es;
        var k' :| k' in before && before[k'] == es[j];
        assert k' == k;
      }
    }
  }

  // ------------------------------------------------------------ dashboard

  datatype Goals = Goals(calories: int, protein: int, carbs: int, fat: int)

  const DefaultGoals := Goals(DefaultCalorieGoal, DefaultProteinGoal, DefaultCarbGoal, DefaultFatGoal)

  /** The body of GET /api/dashboard/stats. */
  datatype Stats = Stats(
    todayCalories: real, todayProtein: real, todayCarbs: real, todayFat: real, todayWater: real,
    weeklyWorkouts: nat, totalWorkouts: nat, currentWeight: Option<real>,
    goals: Goals, recentWorkouts: seq<Workout>)

  /** A meal's stored totals, 0 when missing. */
  function MealCalories(m: Meal): real { IntOrZero(m.totalCalories) as real }
  function MealProtein(m: Meal): real { RealOrZero(m.totalProtein) }
  function MealCarbs(m: Meal): real { RealOrZero(m.totalCarbs) }
  function MealFat(m: Meal): real { RealOrZero(m.totalFat) }
  function IntakeAmount(w: WaterIntake): real { w.amount }

  /** `user?.goal || default` for each goal. */
  function GoalsOf(user: Option<User>): (g: Goals)
    ensures user.None? ==> g == DefaultGoals
    ensures user.Some? ==> (g.calories == IntOr(user.value.dailyCalorieGoal, DefaultCalorieGoal)
                         && g.protein == IntOr(user.value.dailyProteinGoal, DefaultProteinGoal)
                         && g.carbs == IntOr(user.value.dailyCarbGoal, DefaultCarbGoal)
                         && g.fat == IntOr(user.value.dailyFatGoal, DefaultFatGoal))
  {
    match user
    case None => DefaultGoals
    case Some(u) => Goals(IntOr(u.dailyCalorieGoal, DefaultCalorieGoal), IntOr(u.dailyProteinGoal, DefaultProteinGoal),
      IntOr(u.dailyCarbGoal, DefaultCarbGoal), IntOr(u.dailyFatGoal, DefaultFatGoal))
  }

  function Min(a: int, b: int): int { if a <= b then a else b }

  /** The summary for the lists the handler fetches; `workouts` newest first. */
  function StatsOf(todayMeals: seq<Meal>, todayWater: seq<WaterIntake>, workouts: seq<Workout>,
                   latest: Option<BodyMeasurement>, user: Option<User>, now: Time): (s: Stats)
    ensures s.todayCalories == Sum(todayMeals, MealCalories)
    ensures RoundedTo1(s.todayProtein, Sum(todayMeals, MealProtein))
    ensures RoundedTo1(s.todayCarbs, Sum(todayMeals, MealCarbs))
    ensures RoundedTo1(s.todayFat, Sum(todayMeals, MealFat))
    ensures RoundedTo1(s.todayWater, Sum(todayWater, IntakeAmount))
    ensures todayMeals == [] ==> (s.todayCalories == 0.0 && s.todayProtein == 0.0
                               && s.todayCarbs == 0.0 && s.todayFat == 0.0)
    ensures todayWater == [] ==> s.todayWater == 0.0
    ensures s.totalWorkouts == |workouts| && s.weeklyWorkouts <= s.totalWorkouts
    ensures s.weeklyWorkouts == Count(workouts, OnOrAfter(WeekAgo(now)))
    ensures (forall w :: w in workouts ==> w.date >= WeekAgo(now)) ==> s.weeklyWorkouts == s.totalWorkouts
    ensures (forall w :: w in workouts ==> w.date < WeekAgo(now)) ==> s.weeklyWorkouts == 0
    ensures s.recentWorkouts == workouts[..Min(3, |workouts|)]
    ensures latest.None? ==> s.currentWeight.None?
    ensures latest.Some? ==> s.currentWeight == latest.value.weight
    ensures s.goals == GoalsOf(user)
  {
    CountExtremes(workouts, OnOrAfter(WeekAgo(now)));
    Stats(
      Sum(todayMeals, MealCalories),
      Round1(Sum(todayMeals, MealProtein)), Round1(Sum(todayMeals, MealCarbs)), Round1(Sum(todayMeals, MealFat)),
      Round1(Sum(todayWater, IntakeAmount)),
      Count(workouts, OnOrAfter(WeekAgo(now))), |workouts|,
      if latest.None? then None else latest.value.weight,
      GoalsOf(user),
      workouts[..Min(3, |workouts|)])
  }

  /** A prefix of a newest-first list holds the newest entries of the whole list. */
  lemma PrefixNewest(ws: seq<Workout>, k: nat)
    requires SortedDesc(ws, WorkoutDate) && k <= |ws|
    ensures SortedDesc(ws[..k], WorkoutDate)
    ensures forall w, v :: w in ws[..k] && v in ws && v !in ws[..k] ==> w.date >= v.date
  {
    forall w, v | w in ws[..k] && v in ws && v !in ws[..k]
      ensures w.date >= v.date
    {
      var i :| 0 <= i < k && ws[i] == w;
      var j :| 0 <= j < |ws| && ws[j] == v;
      assert forall t :: 0 <= t < k ==> ws[..k][t] == ws[t];
      assert WorkoutDate(ws[i]) >= WorkoutDate(ws[j]);
    }
  }

  /** GET /api/dashboard/stats for `userId` at time `now`. A missing user gets the default goals. */
  function DashboardStats(store: MemStorage, userId: Id, now: Time): (s: Stats)
    reads store
    requires store.Valid()
    ensures s == StatsOf(store.GetMealsByDate(userId, StartOfDay(now)), store.GetWaterIntake(userId, StartOfDay(now)),
                         store.GetWorkouts(userId), store.GetLatestBodyMeasurement(userId), store.GetUser(userId), now)
    ensures s.totalWorkouts == |store.GetWorkouts(userId)|
    ensures |s.recentWorkouts| == Min(3, s.totalWorkouts)
    ensures s.recentWorkouts == store.GetWorkouts(userId)[..Min(3, s.totalWorkouts)]
    ensures SortedDesc(s.recentWorkouts, WorkoutDate)
    ensures forall w :: w in s.recentWorkouts ==> w in store.workouts.rows.Values && w.userId == userId
    ensures forall w, v :: (w in s.recentWorkouts && v in store.workouts.rows.Values && v.userId == userId
                            && v !in s.recentWorkouts) ==> w.date >= v.date
    ensures s.weeklyWorkouts == Count(store.GetWorkouts(userId), OnOrAfter(WeekAgo(now)))
    ensures s.weeklyWorkouts <= s.totalWorkouts
    ensures s.goals == GoalsOf(store.GetUser(userId))
    ensures userId !in store.users.rows ==> s.goals == DefaultGoals
    ensures store.GetLatestBodyMeasurement(userId).Some? ==>
              s.currentWeight == store.GetLatestBodyMeasurement(userId).value.weight
    ensures (forall m :: m in store.bodyMeasurements.rows.Values ==> m.userId != userId) ==> s.currentWeight.None?
  {
    var workouts := store.GetWorkouts(userId);
    PrefixNewest(workouts, Min(3, |workouts|));
    StatsOf(store.GetMealsByDate(userId, StartOfDay(now)), store.GetWaterIntake(userId, StartOfDay(now)), workouts,
      store.GetLatestBodyMeasurement(userId), store.GetUser(userId), now)
  }

  /**
   * The day figures of the dashboard: sums over the user's meals and water
   * intakes dated today, the macros and water rounded to one decimal, and
   * 0 when nothing is dated today.
   */
  lemma DashboardToday(store: MemStorage, userId: Id, now: Time)
    requires store.Valid()
    ensures var s := DashboardStats(store, userId, now);
            var meals := store.GetMealsByDate(userId, StartOfDay(now));
            && s.todayCalories == Sum(meals, MealCalories)
            && RoundedTo1(s.todayProtein, Sum(meals, MealProtein))
            && RoundedTo1(s.todayCarbs, Sum(meals, MealCarbs))
            && RoundedTo1(s.todayFat, Sum(meals, MealFat))
            && RoundedTo1(s.todayWater, Sum(store.GetWaterIntake(userId, StartOfDay(now)), IntakeAmount))
    ensures (forall m :: m in store.meals.rows.Values && m.userId == userId ==> !OnDay(m.date, now)) ==>
              (var s := DashboardStats(store, userId, now);
               s.todayCalories == 0.0 && s.todayProtein == 0.0 && s.todayCarbs == 0.0 && s.todayFat == 0.0)
    ensures (forall w :: w in store.waterIntakes.rows.Values && w.userId == userId ==> !OnDay(w.date, now)) ==>
              DashboardStats(store, userId, now).todayWater == 0.0
  {
    StartOfDayIdempotent(now);
    var meals := store.GetMealsByDate(userId, StartOfDay(now));
    var water := store.GetWaterIntake(userId, StartOfDay(now));
    assert meals != [] ==> meals[0] in meals;
    assert water != [] ==> water[0] in water;
  }

}
