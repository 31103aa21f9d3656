# Fitness tracker: a verified model of the store, the API handlers and two pages

The fitness tracker is a web application. A user registers and logs in, then
logs workouts with their exercises, logs meals with their food items, and
records water intake and body measurements. A dashboard summarises the day.
The server keeps every record in an in-memory store, `MemStorage`: seven
JavaScript `Map`s, with ids drawn at random. Express handlers sit on top
of the store. Two client pages compute figures from the lists the server
returns.

This Dafny project models these parts:

- **`Storage`** (`storage.dfy`): `MemStorage` is a class with one table
  field per record kind and a fresh-id counter. Every getter is a function
  that reads the store. Every create, update and delete is a method that
  modifies only its own table (and the counter). `Valid()` is the invariant
  every method keeps: each table's insertion order lists each key once,
  each key is below the counter, and each record's `id` is its key.
  - Getters filtered by owner or by day characterise their result exactly:
    no duplicates, and membership if and only if.
  - Sorted getters come out newest first, and ties keep insertion order.
  - Creates append the new record to the table's `values()` order.
- **`Tables`** (`tables.dfy`): a JavaScript `Map` as the store uses it,
  with `get`, `set` and `delete`. Values come out in first-insertion order.
- **`Routes`** (`routes.dfy`): the handlers that contain logic.
  - Register rejects a registered email.
  - Login takes the first user with the email and checks the password.
  - Profile read and write report `User not found` for a missing user.
  - Meal creation stores the food items, then overwrites the meal's totals
    with totals computed from them.
  - Workout deletion checks ownership, then removes the workout's exercises
    and then the workout.
  - The dashboard handler computes the day's stats.
- **`Analytics`** (`analytics.dfy`): the analytics page's weekly, monthly
  and total workout counts, calories burned, and the two rounded averages.
- **`MealsPage`** (`meals_page.dfy`): the meals page.
  - Grouping a day's meals by type is a method with a loop, proved equal to
    a reference grouping.
  - The page shows breakfast, lunch, dinner and snack in that fixed order,
    with per-section calorie totals.
  - It also covers the per-item kcal, the type label and the food icon rule.
- **Supporting modules**: `Numbers` (`Math.round`, rounding to one decimal,
  and JavaScript's `x || d` on nullable columns), `Dates` (start of day,
  the day window, a week back) and `Seqs` (`filter`, count, `reduce` sums,
  `find`, and the stable descending sort). `Schema` holds the record, insert
  and patch shapes; `Wrappers` holds `Option` and the patch field wrapper.

Two behaviours of the code are worth stating plainly:

- The dashboard handler never reports a missing user. It falls back to the
  default goals (2200 kcal, 120 g protein, 250 g carbs, 75 g fat).
  `Routes.DashboardStats` states this.
- The profile update copies all nine body fields, so a field missing from
  the body overwrites the stored value with nothing. Nothing re-checks email
  uniqueness on this path.

## Model

| member | source | states |
|---|---|---|
| Storage.MemStorage.constructor | server/storage.ts:66-73 | a new store is valid and all seven tables are empty |
| Storage.MemStorage.GetUser | server/storage.ts:77-79 | present exactly when the id is stored; the result is that record, with that id |
| Storage.MemStorage.GetUserByEmail | server/storage.ts:81-83 | none exactly when no stored user has the email; otherwise the first user with that email in insertion order |
| Storage.MemStorage.GetUserByUsername | server/storage.ts:85-87 | none exactly when no stored user has the username; otherwise the first user with it in insertion order |
| Storage.MemStorage.CreateUser | server/storage.ts:89-103 | fresh id; falsy diet and goal fields replaced by omnivore/2200/120/250/75; the user is appended to the table's value order; the invariant is kept |
| Storage.MemStorage.UpdateUser | server/storage.ts:105-112 | none and no change exactly when the id is absent; otherwise the stored user becomes the patched one, keeping its place in the order |
| Storage.MemStorage.GetWorkouts | server/storage.ts:115-119 | no duplicates; holds exactly the user's stored workouts; newest first |
| Storage.GetWorkoutsStable | server/storage.ts:115-119 | workouts with the same date keep their insertion order (the sort is stable) |
| Storage.MemStorage.GetWorkout | server/storage.ts:121-123 | present exactly when stored; the result carries the looked-up id |
| Storage.MemStorage.CreateWorkout | server/storage.ts:125-137 | fresh id; falsy duration, calories and notes become null; appended; invariant kept |
| Storage.MemStorage.UpdateWorkout | server/storage.ts:139-146 | none and no change exactly when absent; otherwise the patched workout replaces it in place |
| Storage.MemStorage.DeleteWorkout | server/storage.ts:148-150 | reports whether the id was stored; afterwards exactly that key is gone |
| Storage.MemStorage.GetExercisesByWorkout | server/storage.ts:153-156 | no duplicates; exactly the stored exercises of the workout |
| Storage.MemStorage.CreateExercise | server/storage.ts:158-171 | fresh id; falsy sets, reps, weight, distance and duration become null; appended |
| Storage.MemStorage.UpdateExercise | server/storage.ts:173-180 | none and no change exactly when absent; otherwise patched in place |
| Storage.MemStorage.DeleteExercise | server/storage.ts:182-184 | reports whether the id was stored; exactly that key is removed |
| Storage.MemStorage.GetMeals | server/storage.ts:187-191 | no duplicates; exactly the user's stored meals; newest first |
| Storage.GetMealsStable | server/storage.ts:187-191 | meals with the same date keep insertion order |
| Storage.MemStorage.GetMealsByDate | server/storage.ts:193-205 | exactly the user's meals dated from the start of the given day up to, not including, the next day; no duplicates |
| Storage.MemStorage.GetMeal | server/storage.ts:207-209 | present exactly when stored |
| Storage.MemStorage.CreateMeal | server/storage.ts:211-224 | fresh id; falsy totals become 0; appended; invariant kept |
| Storage.MemStorage.UpdateMeal | server/storage.ts:226-233 | none and no change exactly when absent; otherwise patched in place |
| Storage.MemStorage.DeleteMeal | server/storage.ts:235-237 | reports whether the id was stored; exactly that key is removed |
| Storage.MemStorage.GetFoodItemsByMeal | server/storage.ts:240-243 | no duplicates; exactly the stored items of the meal |
| Storage.MemStorage.CreateFoodItem | server/storage.ts:245-256 | fresh id; falsy protein, carbs and fat per gram become 0; appended |
| Storage.MemStorage.UpdateFoodItem | server/storage.ts:258-265 | none and no change exactly when absent; otherwise patched in place |
| Storage.MemStorage.DeleteFoodItem | server/storage.ts:267-269 | reports whether the id was stored; exactly that key is removed |
| Storage.MemStorage.GetBodyMeasurements | server/storage.ts:272-276 | no duplicates; exactly the user's measurements; newest first |
| Storage.GetBodyMeasurementsStable | server/storage.ts:272-276 | measurements with the same date keep insertion order |
| Storage.MemStorage.GetLatestBodyMeasurement | server/storage.ts:278-281 | none exactly when the user has no measurement; otherwise the head of the user's newest-first list, dated no earlier than any other of theirs |
| Storage.LatestIsFirstStored | server/storage.ts:278-281 | among the user's measurements sharing the latest date, the one reported is the first stored |
| Storage.MemStorage.CreateBodyMeasurement | server/storage.ts:283-300 | fresh id; each falsy measurement becomes null; appended |
| Storage.MemStorage.UpdateBodyMeasurement | server/storage.ts:302-309 | none and no change exactly when absent; otherwise patched in place |
| Storage.MemStorage.DeleteBodyMeasurement | server/storage.ts:311-313 | reports whether the id was stored; exactly that key is removed |
| Storage.MemStorage.GetWaterIntake | server/storage.ts:316-328 | exactly the user's intakes within the given day; no duplicates |
| Storage.MemStorage.CreateWaterIntake | server/storage.ts:330-339 | fresh id; the intake is stored as given with the creation time; appended |
| Storage.MemStorage.UpdateWaterIntake | server/storage.ts:341-348 | none and no change exactly when absent; otherwise patched in place |
| Storage.KeyedGrow | server/storage.ts:90-102 | storing a record under the counter's id keeps the keyed invariant with the counter advanced, appends the record to the values, and the id was unused |
| Storage.KeyedFilterSort | server/storage.ts:115-119 | filtering and sorting a keyed table gives a duplicate-free, newest-first list of exactly the matching records |
| Tables.PutNew | server/storage.ts:101 | `set` of a new key keeps the order valid and appends the value to `values()` |
| Tables.PutExisting | server/storage.ts:110 | `set` of an existing key keeps the order and replaces the value in place |
| Tables.PutTwice | server/storage.ts:226-233 | setting a key twice is the same as setting it once to the second value |
| Tables.RemoveValid | server/storage.ts:149 | `delete` keeps the insertion order valid |
| Tables.ValuesDistinct | server/storage.ts:116 | a keyed table's `values()` has no duplicates |
| Seqs.SortDescSorted | server/storage.ts:118 | the descending comparator sort yields a newest-first list |
| Seqs.SortDescPermutes | server/storage.ts:118 | the sort returns a permutation of its input |
| Seqs.SortDescStable | server/storage.ts:118 | elements with equal keys keep their relative order |
| Seqs.FilterMembers | server/storage.ts:117 | `filter` keeps exactly the elements that pass |
| Seqs.FilterMonotone | client/src/pages/analytics.tsx:49-59 | a weaker test keeps at least as many elements |
| Seqs.CountExtremes | client/src/pages/analytics.tsx:49-59 | all elements passing counts the whole list; none passing counts 0 |
| Seqs.CountSnoc | client/src/pages/analytics.tsx:49-53 | one more element raises the count by one exactly when it passes |
| Routes.Register | server/routes.ts:39-74 | fails with `User already exists` exactly when some stored user has the email, and then nothing changes; otherwise stores one new user under a fresh id with the hashed password and answers its account fields; a store with unique emails keeps them unique |
| Routes.Login | server/routes.ts:76-105 | failure is always `Invalid credentials`; success names the first stored user with the email, and their hash matches; no user with the email means failure; with unique emails, success exactly when that user's password matches |
| Routes.LoginUnique | server/routes.ts:76-105 | with unique emails, login as a given user succeeds exactly when their password matches, and answers that user's account |
| Routes.GetProfile | server/routes.ts:108-130 | `User not found` exactly when the id is absent; otherwise the user's ten profile fields |
| Routes.UpdateProfile | server/routes.ts:132-166 | `User not found` and no change exactly when absent; otherwise the nine body fields are written, id, password and creation time are kept, and the user keeps its place |
| Routes.MealTotals | server/routes.ts:271-281 | calories are the summed item calories rounded to the nearest integer; each macro is its sum rounded to one decimal; no items gives zeros |
| Routes.MealTotalsNonNegative | server/routes.ts:271-281 | non-negative items give non-negative totals |
| Routes.MealTotalsExample | server/routes.ts:271-281 | 100 g at 1.65 kcal, 0.31 g protein, no carbs and 0.036 g fat per gram totals 165 kcal, 31.0, 0.0 and 3.6 |
| Routes.TotalsPatch | server/routes.ts:277-282 | the update changes the four totals of a meal and nothing else |
| Routes.StoreFoodItems | server/routes.ts:261-268 | stores the items in body order, each under the meal with consecutive fresh ids, and appends them to the food item values |
| Routes.AttachFoodItems | server/routes.ts:261-282 | stores the items, then the stored meal is the meal with the totals of exactly those items |
| Routes.CreateMealRoute | server/routes.ts:254-291 | the meal is stored once under a fresh id; without a food item list the items are none and the totals are the insert's (falsy ones 0); with one, the items are stored under the meal and the meal's totals are theirs |
| Routes.DeleteExercises | server/routes.ts:220 | deleting each listed exercise removes exactly their ids from the exercise table |
| Routes.CascadeRemovesExercises | server/routes.ts:219-222 | removing the ids of a workout's exercises leaves exactly the other workouts' exercises, unchanged |
| Routes.DeleteWorkoutRoute | server/routes.ts:211-227 | `Workout not found` and no change exactly when the workout is absent or owned by someone else; otherwise the workout and all and only its exercises are removed |
| Routes.GoalsOf | server/routes.ts:361-377 | a missing user gets the default goals; otherwise each goal falls back to its default when falsy |
| Routes.StatsOf | server/routes.ts:342-378 | calories are the plain sum; protein, carbs, fat and water are sums rounded to one decimal; empty lists give 0; the weekly count is the number of workouts from a week back, all or none in the edge cases; total is the count; the recent list is the first three; the weight is the latest measurement's |
| Routes.PrefixNewest | server/routes.ts:378 | the first k of a newest-first list are newest first and no older than anything left out |
| Routes.DashboardStats | server/routes.ts:335-383 | the summary of today's meals and water, the user's workouts, latest measurement and user record; total is the workout count; the recent list is the first min(3, total) workouts, newest first, none older than one left out; weekly is the count dated from a week back, at most total; the goals are the user's with defaults, the default goals for a missing user; the weight is the latest measurement's, none without measurements |
| Routes.DashboardToday | server/routes.ts:339-353 | today's calories are the sum over the user's meals dated today; protein, carbs, fat and water are today's sums rounded to one decimal; nothing dated today gives 0 |
| Analytics.TotalWorkoutsShown | client/src/pages/analytics.tsx:237 | 0 while loading, else the list length |
| Analytics.WeeklyWorkouts | client/src/pages/analytics.tsx:49-53 | 0 while loading or for no workouts; never more than the total shown; all workouts when all are dated from a week back, 0 when none is |
| Analytics.MonthlyWorkouts | client/src/pages/analytics.tsx:55-59 | 0 while loading or for no workouts; never more than the total shown; all workouts when all are dated from a month back, 0 when none is |
| Analytics.MonthlyAfterLogging | client/src/pages/analytics.tsx:55-59 | logging one more workout raises the monthly count exactly when it is dated from a month back |
| Analytics.WeeklyAfterLogging | client/src/pages/analytics.tsx:49-53 | logging one more workout raises the weekly count exactly when it is dated within the week |
| Analytics.WeeklyWithinMonthly | client/src/pages/analytics.tsx:49-59 | when a month back is no later than a week back, the weekly count is at most the monthly one |
| Analytics.TotalCaloriesBurned | client/src/pages/analytics.tsx:61 | 0 while loading or for no workouts |
| Analytics.TotalCaloriesAfterLogging | client/src/pages/analytics.tsx:61 | logging a workout adds its calories (0 when falsy) to the total |
| Analytics.RoundedMean | client/src/pages/analytics.tsx:63-65 | 0 for no workouts or while loading; otherwise within half of the exact mean |
| Analytics.AverageWorkoutDuration | client/src/pages/analytics.tsx:63-65 | 0 for no workouts or while loading; otherwise the summed minutes over the count, rounded to the nearest integer |
| Analytics.AverageCaloriesPerWorkout | client/src/pages/analytics.tsx:261-264 | 0 for no workouts or while loading; otherwise the calories burned over the count, rounded to the nearest integer |
| Analytics.AverageOfEqualDurations | client/src/pages/analytics.tsx:63-65 | workouts that all lasted d minutes average d |
| Analytics.NoCaloriesLogged | client/src/pages/analytics.tsx:61 | without calorie entries the total and the average are 0 |
| MealsPage.MealsByType | client/src/pages/meals.tsx:70-74 | no meals loaded gives an empty grouping; otherwise the loop's map equals the reference grouping |
| MealsPage.GroupedAt | client/src/pages/meals.tsx:70-74 | a type is a key exactly when some meal has it, and its list is that type's meals in list order |
| MealsPage.GroupedExactlyOnce | client/src/pages/meals.tsx:70-74 | each meal occurs in its own type's list as often as in the input, and in no other |
| MealsPage.GroupedEmpty | client/src/pages/meals.tsx:74 | no meals give no groups |
| MealsPage.MealListOf | client/src/pages/meals.tsx:195-199 | the placeholder shows exactly when there are no groups |
| MealsPage.SectionsFor | client/src/pages/meals.tsx:197-203 | each section is a listed type with meals; it shows that type's meals, their calorie sum and the type's label |
| MealsPage.SectionsOfKnownTypes | client/src/pages/meals.tsx:197-200 | every section is one of the four types, and every one of them with meals gets a section |
| MealsPage.SectionsInOrder | client/src/pages/meals.tsx:197 | sections come in breakfast, lunch, dinner, snack order, each at most once |
| MealsPage.OtherTypesShowNothing | client/src/pages/meals.tsx:195-200 | meals only of other types give neither sections nor the placeholder |
| MealsPage.SectionTotalsAddUp | client/src/pages/meals.tsx:201-203 | when all meals have one of the four types, the section totals add up to the day's calories |
| MealsPage.ItemKcal | client/src/pages/meals.tsx:243 | quantity times kcal per gram, rounded to the nearest integer |
| MealsPage.ItemKcalSum | client/src/pages/meals.tsx:243 | the shown item figures stay within half a kcal per item of the exact sum |
| MealsPage.MealTypeLabel | client/src/pages/meals.tsx:54-56 | same length; the first letter upper-cased, the rest kept |
| MealsPage.MealTypeLabelIdempotent | client/src/pages/meals.tsx:54-56 | labelling a label changes nothing |
| MealsPage.SectionLabels | client/src/pages/meals.tsx:54-56 | the four types read Breakfast, Lunch, Dinner and Snack |
| MealsPage.ToLower | client/src/pages/meals.tsx:59 | the same length, each letter lowered |
| MealsPage.FoodIconCases | client/src/pages/meals.tsx:58-67 | meat icon exactly when the lowered name contains a meat word; grain exactly when it has no meat word but a grain word; otherwise the default icon |
| MealsPage.FoodIconIgnoresCase | client/src/pages/meals.tsx:58-67 | the icon does not depend on letter case |
| MealsPage.ChickenRiceIsMeat | client/src/pages/meals.tsx:60-62 | "chicken rice" gets the meat icon: the meat test comes first |
| MealsPage.GoatIsGrain | client/src/pages/meals.tsx:63-65 | "goat" gets the grain icon, because it contains "oat" |
| Numbers.Round | server/routes.ts:278 | `Math.round`: within half of x, with halves rounded up |
| Numbers.RoundUnique | server/routes.ts:278 | any integer within that half-open range is the rounded value |
| Numbers.Round1 | server/routes.ts:279-281 | `Math.round(x * 10) / 10`: a multiple of a tenth within a twentieth of x |
| Numbers.Round1Unique | server/routes.ts:279-281 | that property determines the value |
| Numbers.IntOrZero | server/routes.ts:342 | `x || 0` on a nullable number |
| Dates.StartOfDay | server/storage.ts:194-195 | the start of the day is no later than t, less than a day before it, and a whole number of days |
| Dates.OnDayIff | server/storage.ts:193-205 | a time falls in a given day's window exactly when both have the same start of day |

## Left out

- HTTP itself is not modelled: routing, status codes, JSON bodies, the
  `try`/`catch` error replies, and the token check on protected routes.
  Each handler is a Dafny member over the store, and a failure is a `Reply`
  value naming the message.
- Request validation with zod (the insert schemas) is not modelled. Bodies
  arrive as well-typed insert values.
- `bcrypt` and `jwt` are not modelled. The password hash is a function
  parameter `hash`, the comparison is a parameter `matches`, and the token
  is left out.
- `randomUUID()` is a counter. Fresh ids are unique, but they are not
  random strings.
- `new Date()` is a parameter `now`. Times are integer milliseconds in a
  single time zone. `setHours(0,0,0,0)` is a floor to whole days.
- `setMonth(-1)` is not modelled: the month-back instant is a parameter
  `monthAgo`.
- Floating point is modelled as exact reals, so IEEE rounding errors in
  the sums are not captured.
- `Promise.all` over stores and deletes is modelled as sequential calls in
  list order. The in-memory store never interleaves them.
- Routes.UpdateProfile: does not model JavaScript `undefined` in the four
  text fields (names, email, username): they are taken as given strings.
  `undefined` in the diet and goal fields is modelled as an empty `Option`.
- A `Partial<Record>` patch cannot change `id` or `createdAt`; no caller
  does.
- `currentWeight` does not tell a missing measurement apart from a
  measurement without a weight: both are `None`.
- The page's `{}` accumulator in the mealsByType reduce is a Dafny `map`,
  so inherited prototype keys such as `constructor` do not arise.
- `toLowerCase` and `toUpperCase` are modelled for ASCII letters only.
- The other handlers are not modelled: workout and meal listing, workout
  creation with exercises, measurements and water. They only compose
  storage calls, each of which is modelled: listing calls
  `getExercisesByWorkout` per workout or `getFoodItemsByMeal` per meal,
  and workout creation calls `createExercise` per exercise.
- The React rendering itself is not modelled: markup, icons as
  components, loading states beyond `None`.
