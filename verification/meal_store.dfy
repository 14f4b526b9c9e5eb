/** The meal store: the history of logged meals (most recent first, at most
    one hundred), the loading flag and the last error, with the operations
    that change them. The readers are in `MealStats`. The meal id and the
    instant a meal is logged come from the clock and a random number and are
    parameters here. */
module MealStore {
  import opened Wrappers
  import opened Types
  import opened Seqs
  import Api

  /** The most meals the history keeps. */
  const MaxHistory := 100

  /** `.slice(0, 100)`: the first hundred meals, or all of them. */
  function Capped(s: seq<Meal>): (r: seq<Meal>)
    ensures |r| == if |s| < MaxHistory then |s| else MaxHistory
    ensures r == s[..|r|]
  {
    if |s| <= MaxHistory then s else s[..MaxHistory]
  }

  /** The record `addMeal` builds: the lookup's answer with an id and the
      instant it was logged. */
  function NewMeal(resp: CalorieResponse, id: string, timestamp: int): (m: Meal)
    ensures m.id == id && m.timestamp == timestamp
    ensures m.dishName == resp.dishName && m.source == resp.source
    ensures m.servings == resp.servings && m.caloriesPerServing == resp.caloriesPerServing
    ensures m.totalCalories == resp.totalCalories
  {
    Meal(id, resp.dishName, resp.servings, resp.caloriesPerServing, resp.totalCalories, timestamp, resp.source)
  }

  /** The history after `addMeal`: the new meal first, then the older meals,
      the oldest dropped once there are a hundred. */
  function WithMeal(h: seq<Meal>, m: Meal): (r: seq<Meal>)
    ensures |r| == if |h| < MaxHistory then |h| + 1 else MaxHistory
    ensures r[0] == m
    ensures r[1..] == h[..|r| - 1]
  {
    Capped([m] + h)
  }

  /** The history after `removeMeal(id)`: every meal with another id, in
      order and each as often as before; none with that id. */
  function WithoutMeal(h: seq<Meal>, id: string): (r: seq<Meal>)
    ensures forall k :: 0 <= k < |r| ==> r[k].id != id
    ensures forall m :: m in h && m.id != id ==> multiset(r)[m] == multiset(h)[m]
    ensures IsSubseq(r, h)
  {
    FilterIsSubseq(h, (m: Meal) => m.id != id);
    Filter(h, (m: Meal) => m.id != id)
  }

  /** Removing an id no meal has changes nothing. */
  lemma RemoveAbsentIdIsNoOp(h: seq<Meal>, id: string)
    requires forall k :: 0 <= k < |h| ==> h[k].id != id
    ensures WithoutMeal(h, id) == h
  {
    FilterKeepsAll(h, (m: Meal) => m.id != id);
  }

  /** Removing twice is removing once. */
  lemma RemoveIsIdempotent(h: seq<Meal>, id: string)
    ensures WithoutMeal(WithoutMeal(h, id), id) == WithoutMeal(h, id)
  {
    RemoveAbsentIdIsNoOp(WithoutMeal(h, id), id);
  }

  /** The history after `importMealHistory(meals)`: the imported meals
      first, in their order, then the older meals, a hundred at most. */
  function WithImported(h: seq<Meal>, meals: seq<Meal>): (r: seq<Meal>)
    ensures |r| == if |meals| + |h| < MaxHistory then |meals| + |h| else MaxHistory
    ensures |meals| <= MaxHistory ==> r[..|meals|] == meals
    ensures |meals| >= MaxHistory ==> r == meals[..MaxHistory]
    ensures |r| > |meals| ==> r[|meals|..] == h[..|r| - |meals|]
    ensures r == (meals + h)[..|r|]
  {
    var r := Capped(meals + h);
    assert |meals| <= |r| ==> r[..|meals|] == (meals + h)[..|meals|];
    assert |r| > |meals| ==> r[|meals|..] == (meals + h)[|meals|..|r|] == h[..|r| - |meals|];
    r
  }

  /** The list in reverse order. */
  function Reversed(s: seq<Meal>): (r: seq<Meal>)
    ensures |r| == |s|
    ensures forall i :: 0 <= i < |s| ==> r[i] == s[|s| - 1 - i]
  {
    if s == [] then [] else [s[|s| - 1]] + Reversed(s[..|s| - 1])
  }

  /** The history after adding `meals` one by one, oldest first. */
  function AfterAdds(h: seq<Meal>, meals: seq<Meal>): seq<Meal> {
    if meals == [] then h else WithMeal(AfterAdds(h, meals[..|meals| - 1]), meals[|meals| - 1])
  }

  /** Capping the tail first does not change the capped result. */
  lemma CappedCons(m: Meal, s: seq<Meal>)
    ensures Capped([m] + Capped(s)) == Capped([m] + s)
  {
    var a, b := [m] + Capped(s), [m] + s;
    assert forall i :: 0 <= i < |Capped(a)| ==> Capped(a)[i] == Capped(b)[i];
  }

  /** From a history within the limit, adding meals one at a time leaves the
      history that importing them all at once, latest first, does. */
  lemma {:induction false} AddsAreOneImport(h: seq<Meal>, meals: seq<Meal>)
    requires |h| <= MaxHistory
    ensures AfterAdds(h, meals) == WithImported(h, Reversed(meals))
  {
    if meals != [] {
      var pre, m := meals[..|meals| - 1], meals[|meals| - 1];
      var tail := Reversed(pre) + h;
      assert AfterAdds(h, pre) == Capped(tail) by {
        AddsAreOneImport(h, pre);
      }
      assert [m] + tail == Reversed(meals) + h by {
        assert Reversed(meals) == [m] + Reversed(pre);
      }
      assert Capped([m] + Capped(tail)) == Capped([m] + tail) by {
        CappedCons(m, tail);
      }
    }
  }

  /** However many meals are added, the history holds the latest hundred of
      them, most recent first. */
  lemma HistoryKeepsLatest(meals: seq<Meal>)
    ensures |AfterAdds([], meals)| == if |meals| < MaxHistory then |meals| else MaxHistory
    ensures forall i :: 0 <= i < |AfterAdds([], meals)| ==> AfterAdds([], meals)[i] == meals[|meals| - 1 - i]
  {
    AddsAreOneImport([], meals);
    assert Reversed(meals) + [] == Reversed(meals);
  }

  class Store {
    var mealHistory: seq<Meal>
    var isLoading: bool
    var error: Option<string>

    /** The history never holds more than a hundred meals. */
    predicate Valid()
      reads this
    {
      |mealHistory| <= MaxHistory
    }

    /** The initial state: no meals, not loading, no error. */
    constructor()
      ensures mealHistory == [] && !isLoading && error == None
      ensures Valid()
    {
      mealHistory := [];
      isLoading := false;
      error := None;
    }

    /** Rehydration from the persisted snapshot (`partialize` keeps only
        the history). */
    method Rehydrate(history: seq<Meal>)
      modifies this
      ensures mealHistory == history
      ensures isLoading == old(isLoading) && error == old(error)
    {
      mealHistory := history;
    }

    /** `addMeal(meal)`. */
    method AddMeal(resp: CalorieResponse, id: string, timestamp: int)
      modifies this
      ensures mealHistory == WithMeal(old(mealHistory), NewMeal(resp, id, timestamp))
      ensures isLoading == old(isLoading) && error == old(error)
      ensures Valid()
    {
      mealHistory := WithMeal(mealHistory, NewMeal(resp, id, timestamp));
    }

    /** `clearHistory()`. */
    method ClearHistory()
      modifies this
      ensures mealHistory == []
      ensures isLoading == old(isLoading) && error == old(error)
      ensures Valid()
    {
      mealHistory := [];
    }

    /** `removeMeal(id)`. */
    method RemoveMeal(id: string)
      modifies this
      ensures mealHistory == WithoutMeal(old(mealHistory), id)
      ensures isLoading == old(isLoading) && error == old(error)
      ensures old(Valid()) ==> Valid()
    {
      mealHistory := WithoutMeal(mealHistory, id);
    }

    /** `importMealHistory(meals)`. */
    method ImportMealHistory(meals: seq<Meal>)
      modifies this
      ensures mealHistory == WithImported(old(mealHistory), meals)
      ensures isLoading == old(isLoading) && error == old(error)
      ensures Valid()
    {
      mealHistory := WithImported(mealHistory, meals);
    }

    /** `calculateCalories(req)`: ask the calorie endpoint through `apiCall`
        (`baseUrl` and `reply` stand for the configuration and the server's
        answer). A success logs the meal and clears the error; a failure
        records the message and leaves the history alone. Either way the
        store stops loading, and the outcome is handed back to the caller. */
    method CalculateCalories(baseUrl: Option<string>, reply: Api.Reply<CalorieResponse>, id: string, timestamp: int)
      returns (r: Result<CalorieResponse, string>)
      modifies this
      ensures r == Api.ApiCall(baseUrl, Api.CaloriesEndpoint, reply)
      ensures r.Success? ==> mealHistory == WithMeal(old(mealHistory), NewMeal(r.value, id, timestamp)) && error == None
      ensures r.Failure? ==> mealHistory == old(mealHistory) && error == Some(r.error)
      ensures !isLoading
      ensures old(Valid()) ==> Valid()
    {
      isLoading := true;
      error := None;
      r := Api.ApiCall(baseUrl, Api.CaloriesEndpoint, reply);
      match r {
        case Success(resp) =>
          AddMeal(resp, id, timestamp);
          isLoading := false;
        case Failure(msg) =>
          isLoading := false;
          error := Some(msg);
      }
    }
  }

  /** A store started afresh and rehydrated from another store's persisted
      history has the same meals, and neither the loading flag nor the error
      carries over. */
  method ReloadKeepsHistory(s: Store) returns (reloaded: Store)
    ensures reloaded.mealHistory == s.mealHistory
    ensures !reloaded.isLoading && reloaded.error == None
    ensures s.Valid() ==> reloaded.Valid()
  {
    reloaded := new Store();
    reloaded.Rehydrate(s.mealHistory);
  }
}
