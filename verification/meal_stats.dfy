/** The readers of the meal store: the statistics, the filters, the per-dish
    summaries and the CSV export, each a function of the meal history (most
    recent meal first). Calendar days are given by `dayOf`, which maps an
    instant to the first instant of its local day; the local time zone and
    the date-to-text conversions are parameters of the model. */
module MealStats {
  import opened Types
  import opened Seqs
  import opened Text
  import ArrayUtils

  function DishName(m: Meal): string { m.dishName }

  function Calories(m: Meal): real { m.totalCalories }

  /** Some meal of the history is of `dish`. */
  predicate HasDish(h: seq<Meal>, dish: string) {
    exists k :: 0 <= k < |h| && h[k].dishName == dish
  }

  lemma HasDishIsInProject(h: seq<Meal>, dish: string)
    ensures HasDish(h, dish) <==> dish in Project(h, DishName)
  {
    if dish in Project(h, DishName) {
      var k :| 0 <= k < |h| && Project(h, DishName)[k] == dish;
    }
  }

  /** The number of meals of `dish`. */
  function CountOf(h: seq<Meal>, dish: string): nat {
    CountWhere(h, DishName, dish)
  }

  /** The calories of the meals of `dish`. */
  function CaloriesOf(h: seq<Meal>, dish: string): real {
    SumWhere(h, DishName, dish, Calories)
  }

  /** The calories of the whole history. */
  function TotalCalories(h: seq<Meal>): real {
    SumOf(h, Calories)
  }

  // ---------------------------------------------------------------------
  // Per-dish summaries

  /** `getUniqueDishes()`: every dish name once, in the order of its first
      appearance in the history. */
  function UniqueDishes(h: seq<Meal>): (r: seq<string>)
    ensures ArrayUtils.Distinct(r)
    ensures forall d :: d in r <==> HasDish(h, d)
    ensures forall i :: 0 <= i < |r| ==> r[i] in Project(h, DishName)
    ensures forall i, j :: 0 <= i < j < |r| ==>
      ArrayUtils.FirstIndex(Project(h, DishName), r[i]) < ArrayUtils.FirstIndex(Project(h, DishName), r[j])
  {
    var r := ArrayUtils.Unique(Project(h, DishName));
    forall d ensures d in r <==> HasDish(h, d) {
      HasDishIsInProject(h, d);
    }
    r
  }

  /** `getMealCountByDish()`: one entry per dish that was eaten, holding how
      many times it was. */
  function MealCountByDish(h: seq<Meal>): (r: map<string, nat>)
    ensures forall d :: d in r <==> HasDish(h, d)
    ensures forall d :: d in r ==> r[d] == CountOf(h, d)
  {
    GroupCountIsCountWhere(h, DishName);
    forall d ensures HasDish(h, d) <==> d in Project(h, DishName) {
      HasDishIsInProject(h, d);
    }
    GroupCount(h, DishName)
  }

  /** `getTotalCaloriesByDish()`: one entry per dish that was eaten, holding
      the calories of all its meals. */
  function TotalCaloriesByDish(h: seq<Meal>): (r: map<string, real>)
    ensures forall d :: d in r <==> HasDish(h, d)
    ensures forall d :: d in r ==> r[d] == CaloriesOf(h, d)
  {
    GroupSumIsSumWhere(h, DishName, Calories);
    forall d ensures HasDish(h, d) <==> d in Project(h, DishName) {
      HasDishIsInProject(h, d);
    }
    GroupSum(h, DishName, Calories)
  }

  /** The sum of `m`'s values at `keys`. */
  function SumValuesAt(keys: seq<string>, m: map<string, real>): real
    requires forall k :: 0 <= k < |keys| ==> keys[k] in m
  {
    if keys == [] then 0.0 else SumValuesAt(keys[..|keys| - 1], m) + m[keys[|keys| - 1]]
  }

  /** The sum of `m`'s values at `keys`. */
  function CountValuesAt(keys: seq<string>, m: map<string, nat>): nat
    requires forall k :: 0 <= k < |keys| ==> keys[k] in m
  {
    if keys == [] then 0 else CountValuesAt(keys[..|keys| - 1], m) + m[keys[|keys| - 1]]
  }

  /** The calories of the meals of the listed dishes. */
  function CaloriesOver(dishes: seq<string>, h: seq<Meal>): real {
    if dishes == [] then 0.0 else CaloriesOver(dishes[..|dishes| - 1], h) + CaloriesOf(h, dishes[|dishes| - 1])
  }

  /** The number of meals of the listed dishes. */
  function CountOver(dishes: seq<string>, h: seq<Meal>): nat {
    if dishes == [] then 0 else CountOver(dishes[..|dishes| - 1], h) + CountOf(h, dishes[|dishes| - 1])
  }

  /** One more meal adds its calories to a list of distinct dishes exactly
      when its dish is on the list. */
  lemma {:induction false} CaloriesOverSnoc(dishes: seq<string>, h: seq<Meal>, m: Meal)
    requires ArrayUtils.Distinct(dishes)
    ensures CaloriesOver(dishes, h + [m]) == CaloriesOver(dishes, h) + (if m.dishName in dishes then m.totalCalories else 0.0)
  {
    if dishes != [] {
      var pre, d := dishes[..|dishes| - 1], dishes[|dishes| - 1];
      assert dishes == pre + [d];
      assert forall i :: 0 <= i < |pre| ==> pre[i] != d;
      CaloriesOverSnoc(pre, h, m);
      assert (h + [m])[..|h|] == h;
      assert CaloriesOf(h + [m], d) == CaloriesOf(h, d) + (if m.dishName == d then m.totalCalories else 0.0);
      assert m.dishName in dishes <==> m.dishName in pre || m.dishName == d;
    }
  }

  /** One more meal adds one to a list of distinct dishes exactly when its
      dish is on the list. */
  lemma {:induction false} CountOverSnoc(dishes: seq<string>, h: seq<Meal>, m: Meal)
    requires ArrayUtils.Distinct(dishes)
    ensures CountOver(dishes, h + [m]) == CountOver(dishes, h) + (if m.dishName in dishes then 1 else 0)
  {
    if dishes != [] {
      var pre, d := dishes[..|dishes| - 1], dishes[|dishes| - 1];
      assert dishes == pre + [d];
      assert forall i :: 0 <= i < |pre| ==> pre[i] != d;
      CountOverSnoc(pre, h, m);
      assert (h + [m])[..|h|] == h;
      assert CountOf(h + [m], d) == CountOf(h, d) + (if m.dishName == d then 1 else 0);
      assert m.dishName in dishes <==> m.dishName in pre || m.dishName == d;
    }
  }

  /** The dishes of a history with one more meal. */
  lemma UniqueDishesSnoc(h: seq<Meal>, m: Meal)
    ensures UniqueDishes(h + [m]) ==
      if m.dishName in UniqueDishes(h) then UniqueDishes(h) else UniqueDishes(h) + [m.dishName]
  {
    var s := Project(h + [m], DishName);
    assert (h + [m])[..|h|] == h;
    assert s[..|s| - 1] == Project(h, DishName);
  }

  /** Every meal is of exactly one dish: the calories per dish add up to the
      calories of the history. */
  lemma {:induction false} CaloriesOverDishes(h: seq<Meal>)
    ensures CaloriesOver(UniqueDishes(h), h) == TotalCalories(h)
    decreases |h|
  {
    if h != [] {
      var p, m := h[..|h| - 1], h[|h| - 1];
      assert h == p + [m];
      CaloriesOverDishes(p);
      assert TotalCalories(h) == TotalCalories(p) + m.totalCalories;
      var u := UniqueDishes(p);
      UniqueDishesSnoc(p, m);
      CaloriesOverSnoc(u, p, m);
      if m.dishName in u {
        assert UniqueDishes(h) == u;
        assert CaloriesOver(u, h) == TotalCalories(p) + m.totalCalories;
      } else {
        var d := m.dishName;
        assert CaloriesOver(u, h) == TotalCalories(p);
        assert UniqueDishes(h) == u + [d];
        assert CaloriesOver(u + [d], h) == CaloriesOver(u, h) + CaloriesOf(h, d) by {
          assert (u + [d])[..|u|] == u;
        }
        assert CaloriesOf(h, d) == m.totalCalories by {
          HasDishIsInProject(p, d);
          NotInProjectSumsZero(p, DishName, m.dishName, Calories);
          assert CaloriesOf(h, d) == CaloriesOf(p, d) + m.totalCalories;
        }
      }
    }
  }

  /** Every meal is of exactly one dish: the meal counts per dish add up to
      the number of meals. */
  lemma {:induction false} CountOverDishes(h: seq<Meal>)
    ensures CountOver(UniqueDishes(h), h) == |h|
    decreases |h|
  {
    if h != [] {
      var p, m := h[..|h| - 1], h[|h| - 1];
      assert h == p + [m];
      CountOverDishes(p);
      assert |h| == |p| + 1;
      var u := UniqueDishes(p);
      UniqueDishesSnoc(p, m);
      CountOverSnoc(u, p, m);
      if m.dishName !in u {
        var d := m.dishName;
        assert UniqueDishes(h) == u + [d];
        assert (u + [d])[..|u|] == u;
        assert CountOver(u + [d], h) == CountOver(u, h) + CountOf(h, d);
        HasDishIsInProject(p, d);
        NotInProjectCountsZero(p, DishName, m.dishName);
        assert CountOf(h, d) == CountOf(p, d) + 1;
      }
    }
  }

  /** Summing the calories map over some of its keys. */
  lemma {:induction false} SumValuesAtIsCaloriesOver(dishes: seq<string>, h: seq<Meal>)
    requires forall k :: 0 <= k < |dishes| ==> HasDish(h, dishes[k])
    ensures SumValuesAt(dishes, TotalCaloriesByDish(h)) == CaloriesOver(dishes, h)
  {
    if dishes != [] {
      SumValuesAtIsCaloriesOver(dishes[..|dishes| - 1], h);
    }
  }

  /** Summing the count map over some of its keys. */
  lemma {:induction false} CountValuesAtIsCountOver(dishes: seq<string>, h: seq<Meal>)
    requires forall k :: 0 <= k < |dishes| ==> HasDish(h, dishes[k])
    ensures CountValuesAt(dishes, MealCountByDish(h)) == CountOver(dishes, h)
  {
    if dishes != [] {
      CountValuesAtIsCountOver(dishes[..|dishes| - 1], h);
    }
  }

  /** The values of `getTotalCaloriesByDish()` add up to the total calories
      of `getStats()`. */
  lemma CaloriesByDishSumToTotal(h: seq<Meal>)
    ensures SumValuesAt(UniqueDishes(h), TotalCaloriesByDish(h)) == TotalCalories(h)
  {
    SumValuesAtIsCaloriesOver(UniqueDishes(h), h);
    CaloriesOverDishes(h);
  }

  /** The values of `getMealCountByDish()` add up to the number of meals. */
  lemma MealCountsSumToLength(h: seq<Meal>)
    ensures CountValuesAt(UniqueDishes(h), MealCountByDish(h)) == |h|
  {
    CountValuesAtIsCountOver(UniqueDishes(h), h);
    CountOverDishes(h);
  }

  // ---------------------------------------------------------------------
  // Statistics

  /** The calories of one day, dated by the first instant of the day. */
  datatype DayCalories = DayCalories(date: int, calories: real)

  /** What `getStats()` reports. */
  datatype Stats = Stats(
    totalMeals: nat,
    totalCalories: real,
    averageCaloriesPerMeal: real,
    mostPopularDish: string,
    caloriesByDay: seq<DayCalories>)

  /** `dishCounts[name]`: the count of a dish, zero when absent. */
  function CountIn(counts: map<string, nat>, d: string): nat {
    if d in counts then counts[d] else 0
  }

  /** The position the `reduce` over `Object.entries(dishCounts)` ends on:
      it keeps the entry it holds only when that entry's count is strictly
      greater, so among equal counts the last entry wins. */
  function LastMaxIndex(dishes: seq<string>, counts: map<string, nat>): (k: nat)
    requires |dishes| >= 1
    ensures k < |dishes|
    ensures forall j :: 0 <= j < |dishes| ==> CountIn(counts, dishes[j]) <= CountIn(counts, dishes[k])
    ensures forall j :: k < j < |dishes| ==> CountIn(counts, dishes[j]) < CountIn(counts, dishes[k])
  {
    if |dishes| == 1 then 0
    else
      var a := LastMaxIndex(dishes[..|dishes| - 1], counts);
      assert dishes[..|dishes| - 1][a] == dishes[a];
      if CountIn(counts, dishes[a]) > CountIn(counts, dishes[|dishes| - 1]) then a else |dishes| - 1
  }

  /** `mostPopularDish` of a non-empty history. */
  function MostPopularDish(h: seq<Meal>): (dish: string)
    requires h != []
    ensures HasDish(h, dish)
  {
    var u := UniqueDishes(h);
    assert HasDish(h, h[0].dishName);
    u[LastMaxIndex(u, MealCountByDish(h))]
  }

  /** The most popular dish is one that was eaten, no dish was eaten more
      often, and every dish first eaten after it was eaten strictly less
      often: a tie goes to the dish that appeared last. */
  lemma MostPopularDishIsLastMaximum(h: seq<Meal>)
    requires h != []
    ensures HasDish(h, MostPopularDish(h))
    ensures forall k :: 0 <= k < |h| ==> CountOf(h, h[k].dishName) <= CountOf(h, MostPopularDish(h))
    ensures forall i, j :: 0 <= i < j < |UniqueDishes(h)| && UniqueDishes(h)[i] == MostPopularDish(h) ==>
      CountOf(h, UniqueDishes(h)[j]) < CountOf(h, MostPopularDish(h))
  {
    var u := UniqueDishes(h);
    assert HasDish(h, h[0].dishName);
    LastMaxCounts(h, u, MealCountByDish(h), LastMaxIndex(u, MealCountByDish(h)));
  }

  /** The facts above, for any list of the distinct dishes, any table of
      their counts and the position `LastMaxIndex` picks in it. */
  lemma LastMaxCounts(h: seq<Meal>, u: seq<string>, counts: map<string, nat>, top: nat)
    requires ArrayUtils.Distinct(u)
    requires forall d :: d in u <==> HasDish(h, d)
    requires forall d :: d in counts ==> counts[d] == CountOf(h, d)
    requires top < |u|
    requires forall j :: 0 <= j < |u| ==> CountIn(counts, u[j]) <= CountIn(counts, u[top])
    requires forall j :: top < j < |u| ==> CountIn(counts, u[j]) < CountIn(counts, u[top])
    requires forall d :: d in u ==> d in counts
    ensures forall k :: 0 <= k < |h| ==> CountOf(h, h[k].dishName) <= CountOf(h, u[top])
    ensures forall i, j :: 0 <= i < j < |u| && u[i] == u[top] ==> CountOf(h, u[j]) < CountOf(h, u[top])
  {
    assert forall j :: 0 <= j < |u| ==> CountIn(counts, u[j]) == CountOf(h, u[j]);
    forall k | 0 <= k < |h| ensures CountOf(h, h[k].dishName) <= CountOf(h, u[top]) {
      assert HasDish(h, h[k].dishName);
      var j :| 0 <= j < |u| && u[j] == h[k].dishName;
    }
  }

  /** `new Date(meal.timestamp).toDateString()`, as the first instant of
      that day. */
  function DayOfMeal(dayOf: int -> int): Meal -> int {
    (m: Meal) => dayOf(m.timestamp)
  }

  /** The calories of the meals eaten on `day`. */
  function DayTotal(h: seq<Meal>, dayOf: int -> int, day: int): real {
    SumWhere(h, DayOfMeal(dayOf), day, Calories)
  }

  /** Some meal of the history was eaten on `day`. */
  predicate IsMealDay(h: seq<Meal>, dayOf: int -> int, day: int) {
    exists k :: 0 <= k < |h| && dayOf(h[k].timestamp) == day
  }

  /** Some entry of `entries` is dated `day`. */
  predicate DayListed(entries: seq<DayCalories>, day: int) {
    exists i :: 0 <= i < |entries| && entries[i].date == day
  }

  /** The per-day totals `getStats()` accumulates, keyed by day. */
  function DayTotals(h: seq<Meal>, dayOf: int -> int): map<int, real> {
    GroupSum(h, DayOfMeal(dayOf), Calories)
  }

  /** `{ date, calories }` built from an entry of the per-day totals. */
  function EntryOf(totals: map<int, real>): int -> DayCalories {
    (d: int) => DayCalories(d, if d in totals then totals[d] else 0.0)
  }

  function EntryDate(e: DayCalories): int { e.date }

  /** `Object.entries(caloriesByDay).map(...)`: one entry per day, in the
      order the days first appear in the history. */
  function DayEntries(h: seq<Meal>, dayOf: int -> int): seq<DayCalories> {
    Project(ArrayUtils.Unique(Project(h, DayOfMeal(dayOf))), EntryOf(DayTotals(h, dayOf)))
  }

  /** The entries sorted latest day first. */
  function SortedDays(h: seq<Meal>, dayOf: int -> int): seq<DayCalories> {
    ArrayUtils.SortBy(DayEntries(h, dayOf), EntryDate, ArrayUtils.Desc)
  }

  /** `.slice(0, 7)`. */
  function FirstSeven(s: seq<DayCalories>): (r: seq<DayCalories>)
    ensures |r| == if |s| < 7 then |s| else 7
    ensures forall i :: 0 <= i < |r| ==> r[i] == s[i]
  {
    s[..if |s| < 7 then |s| else 7]
  }

  /** `caloriesByDay` of `getStats()`: the first seven sorted entries. */
  function CaloriesByDay(h: seq<Meal>, dayOf: int -> int): (days: seq<DayCalories>)
    ensures |days| <= 7
  {
    FirstSeven(SortedDays(h, dayOf))
  }

  /** `getStats()`: zeros for an empty history; otherwise the number of
      meals, their calories, the mean, the most popular dish and the
      calories of the latest days. */
  function GetStats(h: seq<Meal>, dayOf: int -> int): (st: Stats)
    ensures h == [] ==> st == Stats(0, 0.0, 0.0, "", [])
    ensures h != [] ==> st.totalMeals == |h| && st.totalCalories == TotalCalories(h)
    ensures h != [] ==> st.averageCaloriesPerMeal == Mean(st.totalCalories, |h|)
    ensures h != [] ==> st.mostPopularDish == MostPopularDish(h) && st.caloriesByDay == CaloriesByDay(h, dayOf)
  {
    if h == [] then Stats(0, 0.0, 0.0, "", [])
    else
      var total := SumOf(h, Calories);
      Stats(|h|, total, Mean(total, |h|), MostPopularDish(h), CaloriesByDay(h, dayOf))
  }

  /** `total / count`: the amount that, taken `count` times, gives `total`. */
  function Mean(total: real, count: nat): (m: real)
    requires count > 0
    ensures m * (count as real) == total
  {
    total / (count as real)
  }

  /** No day has two entries. */
  lemma DayEntriesDistinct(h: seq<Meal>, dayOf: int -> int)
    ensures ArrayUtils.Distinct(DayEntries(h, dayOf))
  {
    var days := ArrayUtils.Unique(Project(h, DayOfMeal(dayOf)));
    var entries := DayEntries(h, dayOf);
    forall i, j | 0 <= i < j < |entries| ensures entries[i] != entries[j] {
      assert entries[i].date == days[i] && entries[j].date == days[j];
    }
  }

  /** Each entry is the total of a day that has a meal. */
  lemma DayEntriesAreDayTotals(h: seq<Meal>, dayOf: int -> int)
    ensures forall e :: e in DayEntries(h, dayOf) ==> e == DayCalories(e.date, DayTotal(h, dayOf, e.date))
    ensures forall e :: e in DayEntries(h, dayOf) ==> IsMealDay(h, dayOf, e.date)
  {
    var key := DayOfMeal(dayOf);
    var days := ArrayUtils.Unique(Project(h, key));
    var entries := DayEntries(h, dayOf);
    GroupSumIsSumWhere(h, key, Calories);
    forall e | e in entries
      ensures e == DayCalories(e.date, DayTotal(h, dayOf, e.date))
      ensures IsMealDay(h, dayOf, e.date)
    {
      var i :| 0 <= i < |entries| && entries[i] == e;
      assert days[i] in Project(h, key);
      var k :| 0 <= k < |h| && Project(h, key)[k] == days[i];
      assert dayOf(h[k].timestamp) == e.date;
    }
  }

  /** Every day that has a meal has its entry. */
  lemma DayEntriesCoverMealDays(h: seq<Meal>, dayOf: int -> int)
    ensures forall k :: 0 <= k < |h| ==>
      DayCalories(dayOf(h[k].timestamp), DayTotal(h, dayOf, dayOf(h[k].timestamp))) in DayEntries(h, dayOf)
  {
    var key := DayOfMeal(dayOf);
    var totals := DayTotals(h, dayOf);
    var days := ArrayUtils.Unique(Project(h, key));
    var entries := DayEntries(h, dayOf);
    GroupSumIsSumWhere(h, key, Calories);
    forall k | 0 <= k < |h|
      ensures DayCalories(dayOf(h[k].timestamp), DayTotal(h, dayOf, dayOf(h[k].timestamp))) in entries
    {
      var d := dayOf(h[k].timestamp);
      assert Project(h, key)[k] == d;
      var i := ArrayUtils.FirstIndex(days, d);
      assert entries[i] == EntryOf(totals)(d);
    }
  }

  /** Each sorted entry is the total of a day that has a meal. */
  lemma SortedDaysAreDayTotals(h: seq<Meal>, dayOf: int -> int)
    ensures forall i :: 0 <= i < |SortedDays(h, dayOf)| ==>
      SortedDays(h, dayOf)[i] == DayCalories(SortedDays(h, dayOf)[i].date, DayTotal(h, dayOf, SortedDays(h, dayOf)[i].date))
    ensures forall i :: 0 <= i < |SortedDays(h, dayOf)| ==>
      IsMealDay(h, dayOf, SortedDays(h, dayOf)[i].date)
  {
    var entries := DayEntries(h, dayOf);
    var sorted := SortedDays(h, dayOf);
    DayEntriesAreDayTotals(h, dayOf);
    forall i | 0 <= i < |sorted|
      ensures sorted[i] == DayCalories(sorted[i].date, DayTotal(h, dayOf, sorted[i].date))
      ensures IsMealDay(h, dayOf, sorted[i].date)
    {
      assert sorted[i] in multiset(entries);
    }
  }

  /** The sorted entries: strictly latest first, each the total of a day
      that has a meal, and every day with a meal listed. */
  lemma SortedDaysSpec(h: seq<Meal>, dayOf: int -> int)
    ensures forall i, j :: 0 <= i < j < |SortedDays(h, dayOf)| ==>
      SortedDays(h, dayOf)[i].date > SortedDays(h, dayOf)[j].date
    ensures forall i :: 0 <= i < |SortedDays(h, dayOf)| ==>
      SortedDays(h, dayOf)[i].calories == DayTotal(h, dayOf, SortedDays(h, dayOf)[i].date)
    ensures forall i :: 0 <= i < |SortedDays(h, dayOf)| ==>
      IsMealDay(h, dayOf, SortedDays(h, dayOf)[i].date)
    ensures forall k :: 0 <= k < |h| ==>
      DayListed(SortedDays(h, dayOf), dayOf(h[k].timestamp))
  {
    var entries := DayEntries(h, dayOf);
    var sorted := SortedDays(h, dayOf);
    SortedDaysAreDayTotals(h, dayOf);
    DayEntriesDistinct(h, dayOf);
    DayEntriesCoverMealDays(h, dayOf);
    ArrayUtils.PermutationKeepsDistinct(entries, sorted);
    forall i, j | 0 <= i < j < |sorted| ensures sorted[i].date > sorted[j].date {
      assert sorted[i] != sorted[j];
    }
    forall k | 0 <= k < |h|
      ensures DayListed(sorted, dayOf(h[k].timestamp))
    {
      var d := dayOf(h[k].timestamp);
      assert DayCalories(d, DayTotal(h, dayOf, d)) in multiset(sorted);
      var p :| 0 <= p < |sorted| && sorted[p] == DayCalories(d, DayTotal(h, dayOf, d));
      assert sorted[p].date == d;
    }
  }

  /** `caloriesByDay` holds at most seven days, latest first and each once,
      each a day that has a meal, with the calories of that day's meals. */
  lemma CaloriesByDaySpec(h: seq<Meal>, dayOf: int -> int)
    ensures |CaloriesByDay(h, dayOf)| <= 7
    ensures forall i, j :: 0 <= i < j < |CaloriesByDay(h, dayOf)| ==>
      CaloriesByDay(h, dayOf)[i].date > CaloriesByDay(h, dayOf)[j].date
    ensures forall i :: 0 <= i < |CaloriesByDay(h, dayOf)| ==>
      CaloriesByDay(h, dayOf)[i].calories == DayTotal(h, dayOf, CaloriesByDay(h, dayOf)[i].date)
    ensures forall i :: 0 <= i < |CaloriesByDay(h, dayOf)| ==>
      IsMealDay(h, dayOf, CaloriesByDay(h, dayOf)[i].date)
  {
    var sorted := SortedDays(h, dayOf);
    var r := CaloriesByDay(h, dayOf);
    SortedDaysSpec(h, dayOf);
    assert r == FirstSeven(sorted);
  }

  /** The days `caloriesByDay` leaves out are older than the seven it
      keeps: every day with a meal is listed, or seven later days are. */
  lemma CaloriesByDayKeepsLatest(h: seq<Meal>, dayOf: int -> int, k: nat)
    requires k < |h|
    ensures DayListed(CaloriesByDay(h, dayOf), dayOf(h[k].timestamp))
      || (|CaloriesByDay(h, dayOf)| == 7 && dayOf(h[k].timestamp) < CaloriesByDay(h, dayOf)[6].date)
  {
    var sorted := SortedDays(h, dayOf);
    var r := CaloriesByDay(h, dayOf);
    assert r == FirstSeven(sorted);
    SortedDaysSpec(h, dayOf);
    var p :| 0 <= p < |sorted| && sorted[p].date == dayOf(h[k].timestamp);
    if p < |r| {
      assert r[p] == sorted[p];
    } else {
      assert |r| == 7 && r[6] == sorted[6] && 6 < p;
    }
  }

  // ---------------------------------------------------------------------
  // Filters

  /** `getMealsByDateRange(startDate, endDate)`: the meals logged between the
      two instants, both included, in history order. */
  function MealsByDateRange(h: seq<Meal>, start: int, end: int): (r: seq<Meal>)
    ensures forall k :: 0 <= k < |r| ==> start <= r[k].timestamp <= end
    ensures forall m :: m in h ==> multiset(r)[m] == if start <= m.timestamp <= end then multiset(h)[m] else 0
    ensures IsSubseq(r, h)
  {
    FilterIsSubseq(h, (m: Meal) => start <= m.timestamp <= end);
    Filter(h, (m: Meal) => start <= m.timestamp <= end)
  }

  /** `getTodayMeals()`, `getWeekMeals()` and `getMonthMeals()` as written:
      the period runs from its first instant to 23:59:59.000 of its last
      day, one second before the next period starts. */
  function PeriodMealsAsWritten(h: seq<Meal>, periodStart: int, nextPeriodStart: int): (r: seq<Meal>)
    ensures forall m :: m in r <==> m in h && periodStart <= m.timestamp <= nextPeriodStart - 1000
  {
    MealsByDateRange(h, periodStart, nextPeriodStart - 1000)
  }

  /** A meal logged in the last second of the period is left out. */
  lemma LastSecondIsLeftOut(h: seq<Meal>, periodStart: int, nextPeriodStart: int, m: Meal)
    requires m in h && nextPeriodStart - 1000 < m.timestamp < nextPeriodStart
    ensures m !in PeriodMealsAsWritten(h, periodStart, nextPeriodStart)
  {
  }

  /** A meal at 23:59:59.500 on the last day of a period, left out of it. */
  lemma LastSecondExample()
    ensures var m := Meal("1", "Apple", 1.0, 95.0, 95.0, 86_399_500, "USDA");
      PeriodMealsAsWritten([m], 0, 86_400_000) == []
  {
    var m := Meal("1", "Apple", 1.0, 95.0, 95.0, 86_399_500, "USDA");
    LastSecondIsLeftOut([m], 0, 86_400_000, m);
  }

  /** The meals of a period, the whole last second included. */
  function PeriodMeals(h: seq<Meal>, periodStart: int, nextPeriodStart: int): (r: seq<Meal>)
    ensures forall m :: m in h ==>
      (m in r <==> periodStart <= m.timestamp < nextPeriodStart)
  {
    var r := MealsByDateRange(h, periodStart, nextPeriodStart - 1);
    forall m | m in h ensures m in r <==> periodStart <= m.timestamp < nextPeriodStart {
      assert m in r <==> multiset(r)[m] > 0;
    }
    r
  }

  /** `searchMeals(query)`: the meals whose dish name contains the query,
      letter case ignored, in history order. */
  function SearchMeals(h: seq<Meal>, query: string): (r: seq<Meal>)
    ensures forall k :: 0 <= k < |r| ==> Contains(ToLower(r[k].dishName), ToLower(query))
    ensures forall m :: m in h ==>
      multiset(r)[m] == if Contains(ToLower(m.dishName), ToLower(query)) then multiset(h)[m] else 0
    ensures IsSubseq(r, h)
  {
    FilterIsSubseq(h, (m: Meal) => Contains(ToLower(m.dishName), ToLower(query)));
    Filter(h, (m: Meal) => Contains(ToLower(m.dishName), ToLower(query)))
  }

  /** The empty query matches every meal. */
  lemma EmptyQueryMatchesAll(h: seq<Meal>)
    ensures SearchMeals(h, "") == h
  {
    forall k | 0 <= k < |h| ensures Contains(ToLower(h[k].dishName), ToLower("")) {
      assert IsPrefix("", ToLower(h[k].dishName)[0..]);
    }
    FilterKeepsAll(h, (m: Meal) => Contains(ToLower(m.dishName), ToLower("")));
  }

  // ---------------------------------------------------------------------
  // CSV export

  const CsvHeader: seq<string> := ["Date", "Dish Name", "Servings", "Calories per Serving", "Total Calories", "Source"]

  /** The cells of a meal's row; `dateText` is `toLocaleDateString()` and
      `numText` is `toString()` on a number. */
  function CsvRow(m: Meal, dateText: int -> string, numText: real -> string): seq<string> {
    [dateText(m.timestamp), m.dishName, numText(m.servings), numText(m.caloriesPerServing),
     numText(m.totalCalories), m.source]
  }

  function CsvLine(dateText: int -> string, numText: real -> string): Meal -> string {
    (m: Meal) => Join(CsvRow(m, dateText, numText), ',')
  }

  /** The text `exportMealHistory()` saves: the header line, then one line
      per meal, cells joined by commas and lines by newlines. */
  function ExportCsv(h: seq<Meal>, dateText: int -> string, numText: real -> string): (csv: string)
    ensures IsPrefix(Join(CsvHeader, ','), csv)
  {
    Join([Join(CsvHeader, ',')] + Project(h, CsvLine(dateText, numText)), '\n')
  }

  /** No cell of any row holds `c`. */
  predicate CellsAvoid(h: seq<Meal>, dateText: int -> string, numText: real -> string, c: char) {
    forall k, j :: 0 <= k < |h| && 0 <= j < 6 ==> c !in CsvRow(h[k], dateText, numText)[j]
  }

  /** When no cell holds a newline, the export splits into the header line
      and one line per meal, in history order. */
  lemma ExportCsvLines(h: seq<Meal>, dateText: int -> string, numText: real -> string)
    requires CellsAvoid(h, dateText, numText, '\n')
    ensures |Split(ExportCsv(h, dateText, numText), '\n')| == |h| + 1
    ensures Split(ExportCsv(h, dateText, numText), '\n')[0] == Join(CsvHeader, ',')
    ensures forall k :: 0 <= k < |h| ==>
      Split(ExportCsv(h, dateText, numText), '\n')[k + 1] == Join(CsvRow(h[k], dateText, numText), ',')
  {
    var body := Project(h, CsvLine(dateText, numText));
    var lines := [Join(CsvHeader, ',')] + body;
    HeaderAvoidsNewline();
    CsvLinesAvoidNewline(h, dateText, numText);
    forall k | 0 <= k < |lines| ensures '\n' !in lines[k] {
      if k > 0 { assert lines[k] == body[k - 1]; }
    }
    SplitJoin(lines, '\n');
    assert Split(ExportCsv(h, dateText, numText), '\n') == lines;
    forall k | 0 <= k < |h| ensures lines[k + 1] == Join(CsvRow(h[k], dateText, numText), ',') {
      assert lines[k + 1] == body[k];
    }
  }

  /** The header line holds no newline. */
  lemma HeaderAvoidsNewline()
    ensures '\n' !in Join(CsvHeader, ',')
  {
    forall k | 0 <= k < |CsvHeader| ensures '\n' !in CsvHeader[k] {
      assert forall c :: c in CsvHeader[k] ==> c == ' ' || 'A' <= c <= 'z';
    }
    JoinAvoids(CsvHeader, ',', '\n');
  }

  /** No meal's line holds a newline when no cell does. */
  lemma CsvLinesAvoidNewline(h: seq<Meal>, dateText: int -> string, numText: real -> string)
    requires CellsAvoid(h, dateText, numText, '\n')
    ensures forall k :: 0 <= k < |h| ==> '\n' !in Project(h, CsvLine(dateText, numText))[k]
  {
    forall k | 0 <= k < |h| ensures '\n' !in Project(h, CsvLine(dateText, numText))[k] {
      var row := CsvRow(h[k], dateText, numText);
      JoinAvoids(row, ',', '\n');
    }
  }

  /** When no cell holds a comma either, each meal's line splits back into
      its six cells. */
  lemma CsvLineCells(m: Meal, dateText: int -> string, numText: real -> string)
    requires forall j :: 0 <= j < 6 ==> ',' !in CsvRow(m, dateText, numText)[j]
    ensures Split(CsvLine(dateText, numText)(m), ',') == CsvRow(m, dateText, numText)
  {
    SplitJoin(CsvRow(m, dateText, numText), ',');
  }

  /** A comma in a dish name is written as is, so the row has a seventh cell. */
  lemma CommaInDishNameAddsCell(dateText: int -> string, numText: real -> string)
    requires forall t :: ',' !in dateText(t)
    requires forall x :: ',' !in numText(x)
    ensures var m := Meal("1", "Mac, cheese", 1.0, 300.0, 300.0, 0, "USDA");
      |Split(CsvLine(dateText, numText)(m), ',')| == 7
  {
    var m := Meal("1", "Mac, cheese", 1.0, 300.0, 300.0, 0, "USDA");
    var cells := [dateText(m.timestamp), "Mac", " cheese", numText(m.servings), numText(m.caloriesPerServing),
      numText(m.totalCalories), m.source];
    var row := CsvRow(m, dateText, numText);
    assert Join(row, ',') == Join(cells, ',') by {
      var rest := row[2..];
      assert cells[3..] == rest && row[1..][1..] == rest && cells[1..][1..] == cells[2..] && cells[2..][1..] == rest;
      assert Join(cells[2..], ',') == cells[2] + [','] + Join(rest, ',');
      assert Join(cells[1..], ',') == cells[1] + [','] + Join(cells[2..], ',');
      assert Join(row[1..], ',') == row[1] + [','] + Join(rest, ',');
      assert row[1] == cells[1] + [','] + cells[2];
    }
    SplitJoin(cells, ',');
  }
}
