/**
 * The meals page: meals grouped by type, the fixed-order sections with their
 * calorie totals, per-item calories, the type label and the food-name icon
 * classifier.
 */
module MealsPage {
  import opened Wrappers
  import opened Numbers
  import opened Seqs
  import opened Schema

  /** A meal as GET /api/meals returns it: with its food items. */
  datatype MealEntry = MealEntry(meal: Meal, foodItems: seq<FoodItem>)

  function TypeOf(e: MealEntry): string { e.meal.mealType }

  function OfType(t: string): MealEntry -> bool { (e: MealEntry) => e.meal.mealType == t }

  /** The reference grouping: for each type that occurs, the meals of that type in list order. */
  function Grouped(s: seq<MealEntry>): map<string, seq<MealEntry>>
  {
    map t | t in TypesIn(s) :: Filter(s, OfType(t))
  }

  /** The types occurring in a list of meals. */
  function TypesIn(s: seq<MealEntry>): set<string>
  {
    set e | e in s :: e.meal.mealType
  }

  /** Grouped(s) has a list for type t exactly when some meal has type t; that list is Filter(s, OfType(t)). */
  lemma GroupedAt(s: seq<MealEntry>, t: string)
    ensures t in Grouped(s) <==> exists e :: e in s && e.meal.mealType == t
    ensures t in Grouped(s) ==> Grouped(s)[t] == Filter(s, OfType(t))
    ensures t !in Grouped(s) ==> Filter(s, OfType(t)) == []
  {
    FilterEmpty(s, OfType(t));
  }

  /** Appending a meal adds its type to the types present. */
  lemma TypesInSnoc(s: seq<MealEntry>, e: MealEntry)
    ensures TypesIn(s + [e]) == TypesIn(s) + {e.meal.mealType}
  {
    assert forall x :: x in s + [e] <==> x in s || x == e;
  }

  /** Appending a meal extends the list of its own type only. */
  lemma FilterSnoc(s: seq<MealEntry>, e: MealEntry, u: string)
    ensures Filter(s + [e], OfType(u)) == Filter(s, OfType(u)) + (if e.meal.mealType == u then [e] else [])
  {
    FilterConcat(s, [e], OfType(u));
    assert Filter([e], OfType(u)) == (if e.meal.mealType == u then [e] else []) + Filter([e][1..], OfType(u));
  }

  /**
   * `mealsByType`: the reduce that files each meal under its type, creating
   * the list on first use and pushing onto it; `{}` while loading.
   */
  method MealsByType(meals: Option<seq<MealEntry>>) returns (acc: map<string, seq<MealEntry>>)
    ensures meals.None? ==> acc == map[]
    ensures meals.Some? ==> acc == Grouped(meals.value)
  {
    acc := map[];
    if meals.None? {
      return;
    }
    var ms := meals.value;
    var i := 0;
    while i < |ms|
      invariant 0 <= i <= |ms|
      invariant acc.Keys == TypesIn(ms[..i])
      invariant forall u :: u in acc ==> acc[u] == Filter(ms[..i], OfType(u))
    {
      var t := ms[i].meal.mealType;
      ghost var before := acc;
      if t !in acc {
        acc := acc[t := []];
      }
      acc := acc[t := acc[t] + [ms[i]]];
      assert ms[..i + 1] == ms[..i] + [ms[i]];
      TypesInSnoc(ms[..i], ms[i]);
      forall u | u in acc
        ensures acc[u] == Filter(ms[..i + 1], OfType(u))
      {
        FilterSnoc(ms[..i], ms[i], u);
        if u == t && t !in before {
          FilterEmpty(ms[..i], OfType(t));
        }
      }
      i := i + 1;
    }
    assert ms[..i] == ms;
  }

  /** Every meal is filed exactly as often as it occurs, under its own type and no other. */
  lemma GroupedExactlyOnce(s: seq<MealEntry>, e: MealEntry, t: string)
    requires t in Grouped(s)
    ensures multiset(Grouped(s)[t])[e] == if e.meal.mealType == t then multiset(s)[e] else 0
  {
    FilterMultiplicity(s, OfType(t), e);
  }

  /** No meals, no groups. */
  lemma GroupedEmpty()
    ensures Grouped([]) == map[]
  {
    assert TypesIn([]) == {};
  }

  // ------------------------------------------------------------- sections

  const Breakfast := "breakfast"
  const Lunch := "lunch"
  const Dinner := "dinner"
  const Snack := "snack"

  /** The order in which the page lists meal types. */
  const SectionOrder: seq<string> := [Breakfast, Lunch, Dinner, Snack]

  /** `meal.totalCalories || 0`. */
  function EntryCalories(e: MealEntry): real { IntOrZero(e.meal.totalCalories) as real }

  datatype Section = Section(mealType: string, heading: string, calories: real, meals: seq<MealEntry>)

  /** The meals of type t, `mealsByType[t] || []`. */
  function MealsOf(byType: map<string, seq<MealEntry>>, t: string): seq<MealEntry>
  {
    if t in byType then byType[t] else []
  }

  function Shown(byType: map<string, seq<MealEntry>>): string -> bool
  {
    t => MealsOf(byType, t) != []
  }

  /** The sections for the types in `order`, skipping types with no meals. */
  function SectionsFor(order: seq<string>, byType: map<string, seq<MealEntry>>): (r: seq<Section>)
    ensures |r| <= |order|
    ensures forall i :: 0 <= i < |r| ==> r[i].mealType in order
    ensures forall i :: 0 <= i < |r| ==> r[i].meals == MealsOf(byType, r[i].mealType) && r[i].meals != []
    ensures forall i :: 0 <= i < |r| ==> (r[i].calories == Sum(r[i].meals, EntryCalories)
                                       && r[i].heading == MealTypeLabel(r[i].mealType))
  {
    if |order| == 0 then []
    else
      var t := order[0];
      var ms := MealsOf(byType, t);
      var rest := SectionsFor(order[1..], byType);
      if ms == [] then rest
      else [Section(t, MealTypeLabel(t), Sum(ms, EntryCalories), ms)] + rest
  }

  /** What the meal list shows: a placeholder when there are no groups at all, else the sections. */
  datatype MealList = Placeholder | Listing(sections: seq<Section>)

  function MealListOf(byType: map<string, seq<MealEntry>>): (v: MealList)
    ensures v.Placeholder? <==> |byType| == 0
    ensures v.Listing? ==> v.sections == SectionsFor(SectionOrder, byType)
  {
    if |byType| > 0 then Listing(SectionsFor(SectionOrder, byType)) else Placeholder
  }

  /** A type's place in the fixed order; other types come after all four. */
  function Rank(t: string): nat
  {
    if t == Breakfast then 0 else if t == Lunch then 1 else if t == Dinner then 2 else if t == Snack then 3 else 4
  }

  /** Sections for a rank-ordered list of types come out in strictly increasing rank. */
  lemma {:induction false} SectionsForRanked(order: seq<string>, byType: map<string, seq<MealEntry>>, lo: nat)
    requires forall k :: 0 <= k < |order| ==> Rank(order[k]) == lo + k
    ensures forall i :: 0 <= i < |SectionsFor(order, byType)| ==> lo <= Rank(SectionsFor(order, byType)[i].mealType)
    ensures forall i, j :: 0 <= i < j < |SectionsFor(order, byType)| ==>
              Rank(SectionsFor(order, byType)[i].mealType) < Rank(SectionsFor(order, byType)[j].mealType)
  {
    if |order| > 0 {
      SectionsForRanked(order[1..], byType, lo + 1);
    }
  }

  /** Every type of `order` that has meals gets a section. */
  lemma {:induction false} SectionsForComplete(order: seq<string>, byType: map<string, seq<MealEntry>>, t: string)
    returns (i: nat)
    requires t in order && MealsOf(byType, t) != []
    ensures i < |SectionsFor(order, byType)| && SectionsFor(order, byType)[i].mealType == t
  {
    var ms := MealsOf(byType, order[0]);
    var rest := SectionsFor(order[1..], byType);
    assert SectionsFor(order, byType) == if ms == [] then rest
      else [Section(order[0], MealTypeLabel(order[0]), Sum(ms, EntryCalories), ms)] + rest;
    if order[0] == t {
      i := 0;
    } else {
      assert t in order[1..];
      var j := SectionsForComplete(order[1..], byType, t);
      i := if ms == [] then j else j + 1;
    }
  }

  /** The sections are those of the four known types that have meals. */
  lemma SectionsOfKnownTypes(byType: map<string, seq<MealEntry>>)
    ensures forall i :: 0 <= i < |SectionsFor(SectionOrder, byType)| ==>
              SectionsFor(SectionOrder, byType)[i].mealType in SectionOrder
    ensures forall t :: t in SectionOrder && MealsOf(byType, t) != [] ==>
              exists i :: 0 <= i < |SectionsFor(SectionOrder, byType)| && SectionsFor(SectionOrder, byType)[i].mealType == t
  {
    forall t | t in SectionOrder && MealsOf(byType, t) != []
      ensures exists i :: 0 <= i < |SectionsFor(SectionOrder, byType)| && SectionsFor(SectionOrder, byType)[i].mealType == t
    {
      var i := SectionsForComplete(SectionOrder, byType, t);
    }
  }

  /** The sections come in the order breakfast, lunch, dinner, snack, each type at most once. */
  lemma SectionsInOrder(byType: map<string, seq<MealEntry>>)
    ensures forall i, j :: 0 <= i < j < |SectionsFor(SectionOrder, byType)| ==>
              Rank(SectionsFor(SectionOrder, byType)[i].mealType) < Rank(SectionsFor(SectionOrder, byType)[j].mealType)
  {
    SectionsForRanked(SectionOrder, byType, 0);
  }

  /** A day whose meals all have some other type shows neither a section nor the placeholder. */
  lemma OtherTypesShowNothing(s: seq<MealEntry>)
    requires s != []
    requires forall e :: e in s ==> e.meal.mealType !in SectionOrder
    ensures MealListOf(Grouped(s)) == Listing([])
  {
    var g := Grouped(s);
    GroupedAt(s, s[0].meal.mealType);
    forall t | t in SectionOrder
      ensures MealsOf(g, t) == []
    {
      GroupedAt(s, t);
      FilterEmpty(s, OfType(t));
    }
    NoMealsNoSections(SectionOrder, g);
  }

  /** Types without meals give no sections. */
  lemma {:induction false} NoMealsNoSections(order: seq<string>, byType: map<string, seq<MealEntry>>)
    requires forall t :: t in order ==> MealsOf(byType, t) == []
    ensures SectionsFor(order, byType) == []
  {
    if |order| > 0 {
      assert order[0] in order;
      assert forall t :: t in order[1..] ==> t in order;
      NoMealsNoSections(order[1..], byType);
    }
  }

  function SectionCalories(sec: Section): real { sec.calories }

  /** The meals of the four known types, summed type by type, make the day's calories. */
  lemma {:induction false} SumByKnownType(s: seq<MealEntry>)
    requires forall e :: e in s ==> e.meal.mealType in SectionOrder
    ensures Sum(Filter(s, OfType(Breakfast)), EntryCalories) + Sum(Filter(s, OfType(Lunch)), EntryCalories)
          + Sum(Filter(s, OfType(Dinner)), EntryCalories) + Sum(Filter(s, OfType(Snack)), EntryCalories)
         == Sum(s, EntryCalories)
  {
    if |s| > 0 {
      assert s[0] in s;
      assert forall e :: e in s[1..] ==> e in s;
      SumByKnownType(s[1..]);
      SumOfTypeCons(s, Breakfast);
      SumOfTypeCons(s, Lunch);
      SumOfTypeCons(s, Dinner);
      SumOfTypeCons(s, Snack);
    }
  }

  lemma SumOfTypeCons(s: seq<MealEntry>, t: string)
    requires |s| > 0
    ensures Sum(Filter(s, OfType(t)), EntryCalories)
         == (if s[0].meal.mealType == t then EntryCalories(s[0]) else 0.0) + Sum(Filter(s[1..], OfType(t)), EntryCalories)
  {
    var p := OfType(t);
    var rest := Filter(s[1..], p);
    assert p(s[0]) <==> s[0].meal.mealType == t;
    if p(s[0]) {
      var x := [s[0]] + rest;
      assert Filter(s, p) == x;
      assert x[0] == s[0] && x[1..] == rest;
      assert Sum(x, EntryCalories) == EntryCalories(s[0]) + Sum(rest, EntryCalories);
    } else {
      assert Filter(s, p) == rest;
    }
  }

  /** When every meal has a known type, the section totals add up to the day's calories. */
  lemma SectionTotalsAddUp(s: seq<MealEntry>)
    requires forall e :: e in s ==> e.meal.mealType in SectionOrder
    ensures Sum(SectionsFor(SectionOrder, Grouped(s)), SectionCalories) == Sum(s, EntryCalories)
  {
    var g := Grouped(s);
    forall t | t in SectionOrder
      ensures MealsOf(g, t) == Filter(s, OfType(t))
    {
      GroupedAt(s, t);
    }
    SumByKnownType(s);
    assert SectionOrder[1..] == [Lunch, Dinner, Snack];
    assert SectionOrder[1..][1..] == [Dinner, Snack];
    assert SectionOrder[1..][1..][1..] == [Snack];
    SectionsSum([Snack], g);
    SectionsSum([Dinner, Snack], g);
    SectionsSum([Lunch, Dinner, Snack], g);
    SectionsSum(SectionOrder, g);
  }

  /** The section totals for `order` add up to the per-type sums. */
  lemma SectionsSum(order: seq<string>, g: map<string, seq<MealEntry>>)
    requires |order| > 0
    ensures Sum(SectionsFor(order, g), SectionCalories)
         == Sum(MealsOf(g, order[0]), EntryCalories) + Sum(SectionsFor(order[1..], g), SectionCalories)
  {
  }

  // ---------------------------------------------------------- item calories

  /** The calories shown for one food item: `Math.round(quantity * caloriesPerGram)`. */
  function ItemKcal(f: FoodItem): (r: int)
    ensures f.quantity * f.caloriesPerGram - 0.5 < r as real <= f.quantity * f.caloriesPerGram + 0.5
  {
    Round(f.quantity * f.caloriesPerGram)
  }

  function ItemKcalReal(f: FoodItem): real { ItemKcal(f) as real }
  function ExactKcal(f: FoodItem): real { f.quantity * f.caloriesPerGram }

  /** The item figures a meal shows add up to its exact calories within half a calorie per item. */
  lemma {:induction false} ItemKcalSum(items: seq<FoodItem>)
    ensures Sum(items, ExactKcal) - 0.5 * |items| as real <= Sum(items, ItemKcalReal)
                                                         <= Sum(items, ExactKcal) + 0.5 * |items| as real
  {
    if |items| > 0 {
      ItemKcalSum(items[1..]);
    }
  }

  // ------------------------------------------------------------ type label

  /** ASCII upper-casing of one character. */
  function UpperChar(c: char): char
  {
    if 'a' <= c <= 'z' then (c as int - 32) as char else c
  }

  /** `type.charAt(0).toUpperCase() + type.slice(1)`. */
  function MealTypeLabel(t: string): (r: string)
    ensures |r| == |t|
    ensures |t| > 0 ==> r[0] == UpperChar(t[0]) && r[1..] == t[1..]
  {
    if |t| == 0 then "" else [UpperChar(t[0])] + t[1..]
  }

  /** Capitalising a label again changes nothing. */
  lemma MealTypeLabelIdempotent(t: string)
    ensures MealTypeLabel(MealTypeLabel(t)) == MealTypeLabel(t)
  {
    if |t| > 0 {
      var c := t[0];
      assert UpperChar(UpperChar(c)) == UpperChar(c);
    }
  }

  /** The four section headings. */
  lemma SectionLabels()
    ensures MealTypeLabel(Breakfast) == "Breakfast" && MealTypeLabel(Lunch) == "Lunch"
    ensures MealTypeLabel(Dinner) == "Dinner" && MealTypeLabel(Snack) == "Snack"
  {
    assert "breakfast"[1..] == "reakfast";
    assert "lunch"[1..] == "unch";
    assert "dinner"[1..] == "inner";
    assert "snack"[1..] == "nack";
  }

  // ------------------------------------------------------------- food icon

  datatype FoodKind = Meat | Grain | Other

  /** ASCII lower-casing of one character. */
  function LowerChar(c: char): char
  {
    if 'A' <= c <= 'Z' then (c as int + 32) as char else c
  }

  function ToLower(s: string): (r: string)
    ensures |r| == |s| && forall i :: 0 <= i < |s| ==> r[i] == LowerChar(s[i])
  {
    if |s| == 0 then "" else [LowerChar(s[0])] + ToLower(s[1..])
  }

  /** s begins with w. */
  predicate StartsWith(s: string, w: string)
  {
    |w| <= |s| && s[..|w|] == w
  }

  /** `s.includes(w)`: w occurs in s at some position. */
  predicate Contains(s: string, w: string)
  {
    StartsWith(s, w) || (|s| > 0 && Contains(s[1..], w))
  }

  /** A word with a character that s lacks does not occur in s. */
  lemma {:induction false} LacksChar(s: string, w: string, c: char)
    requires c in w && c !in s
    ensures !Contains(s, w)
  {
    if |s| > 0 {
      LacksChar(s[1..], w, c);
    }
  }

  lemma {:induction false} ContainsAt(s: string, w: string, i: nat)
    requires i + |w| <= |s| && s[i..i + |w|] == w
    ensures Contains(s, w)
  {
    if i > 0 {
      assert s[1..][i - 1..i - 1 + |w|] == w;
      ContainsAt(s[1..], w, i - 1);
    } else {
      assert s[..|w|] == w;
    }
  }

  const MeatWords: seq<string> := ["chicken", "beef", "fish", "salmon"]
  const GrainWords: seq<string> := ["bread", "oat", "rice"]

  /** `getFoodIcon`, as the category it picks. */
  function FoodIcon(name: string): FoodKind
  {
    var lower := ToLower(name);
    if Contains(lower, "chicken") || Contains(lower, "beef") || Contains(lower, "fish") || Contains(lower, "salmon") then Meat
    else if Contains(lower, "bread") || Contains(lower, "oat") || Contains(lower, "rice") then Grain
    else Other
  }

  /** The three outcomes of the classifier, meat words tested first. */
  lemma FoodIconCases(name: string)
    ensures FoodIcon(name) == Meat <==> exists w :: w in MeatWords && Contains(ToLower(name), w)
    ensures FoodIcon(name) == Grain <==> ((forall w :: w in MeatWords ==> !Contains(ToLower(name), w))
                                       && (exists w :: w in GrainWords && Contains(ToLower(name), w)))
    ensures FoodIcon(name) == Other <==> forall w :: w in MeatWords + GrainWords ==> !Contains(ToLower(name), w)
  {
    var lower := ToLower(name);
    assert forall w :: w in MeatWords <==> w == "chicken" || w == "beef" || w == "fish" || w == "salmon";
    assert forall w :: w in GrainWords <==> w == "bread" || w == "oat" || w == "rice";
    assert forall w :: w in MeatWords + GrainWords <==> w in MeatWords || w in GrainWords;
    var meat := Contains(lower, "chicken") || Contains(lower, "beef") || Contains(lower, "fish") || Contains(lower, "salmon");
    var grain := Contains(lower, "bread") || Contains(lower, "oat") || Contains(lower, "rice");
    assert meat <==> exists w :: w in MeatWords && Contains(lower, w) by {
      if Contains(lower, "chicken") { assert MeatWords[0] == "chicken"; }
      if Contains(lower, "beef") { assert MeatWords[1] == "beef"; }
      if Contains(lower, "fish") { assert MeatWords[2] == "fish"; }
      if Contains(lower, "salmon") { assert MeatWords[3] == "salmon"; }
    }
    assert grain <==> exists w :: w in GrainWords && Contains(lower, w) by {
      if Contains(lower, "bread") { assert GrainWords[0] == "bread"; }
      if Contains(lower, "oat") { assert GrainWords[1] == "oat"; }
      if Contains(lower, "rice") { assert GrainWords[2] == "rice"; }
    }
  }

  lemma ToLowerIdempotent(s: string)
    ensures ToLower(ToLower(s)) == ToLower(s)
  {
    assert forall i :: 0 <= i < |s| ==> LowerChar(LowerChar(s[i])) == LowerChar(s[i]);
  }

  /** The classifier ignores case. */
  lemma FoodIconIgnoresCase(name: string)
    ensures FoodIcon(ToLower(name)) == FoodIcon(name)
  {
    ToLowerIdempotent(name);
  }

  /** Lower-casing leaves a name without capitals as it is. */
  lemma {:induction false} ToLowerNoCapitals(s: string)
    requires forall i :: 0 <= i < |s| ==> !('A' <= s[i] <= 'Z')
    ensures ToLower(s) == s
  {
    if |s| > 0 {
      ToLowerNoCapitals(s[1..]);
    }
  }

  /** A name with both a meat and a grain word is meat. */
  lemma ChickenRiceIsMeat(name: string)
    requires name == "chicken rice"
    ensures FoodIcon(name) == Meat
  {
    ToLowerNoCapitals(name);
    assert name[..7] == "chicken";
  }

  /** The tests are plain substring tests: "goat" contains "oat", so goat is a grain. */
  lemma GoatIsGrain(name: string)
    requires name == "goat"
    ensures FoodIcon(name) == Grain
  {
    ToLowerNoCapitals(name);
    LacksChar(name, "chicken", 'k');
    LacksChar(name, "beef", 'b');
    LacksChar(name, "fish", 'f');
    LacksChar(name, "salmon", 'm');
    assert name[1..4] == "oat";
    ContainsAt(name, "oat", 1);
  }
}
