# Meal calorie tracker — client state, modelled in Dafny

This project models the client-side core of a meal calorie tracker: the
browser stores that hold the state of the app and the utility library they use.

- **Meal store** (`meal_store.dfy`, `meal_stats.dfy`). This is the history of logged meals, most recent first and at most one hundred of them.
  - The writers are a class with `modifies` clauses: add a meal, import meals, remove by id, clear, and the calorie lookup that logs a meal on success.
  - The readers are pure functions over the history: the statistics (totals, average, most popular dish, the last seven days' calories), the inclusive date-range filter, the case-insensitive search, the distinct dishes, the per-dish counts and calorie totals, and the CSV text of the export.
- **Authentication store** (`auth_store.dfy`). It holds the signed-in user, the token, the authenticated flag and the loading flag. The `auth_token` entry of local storage is a field too. Its transitions are login, register, logout, profile update and initialization from the stored token. The persisted snapshot is modelled as well.
- **Interface store** (`ui_store.dfy`). It holds the theme and whether the sidebar is open.
- **Utility library**. This covers:
  - truncation, meta descriptions, capitalization and slugs (`string_utils.dfy`);
  - `chunk`, `unique`, `sortBy`, `pick` and `omit` (`array_utils.dfy`);
  - the e-mail and password validators (`validation.dfy`);
  - the calorie colour buckets, the "time ago" wording, and number and calorie formatting (`display.dfy`);
  - the decision `apiCall` makes about a reply: the value handed back, or the message of the error it throws (`api.dfy`).

`types.dfy` holds the record shapes. `text.dfy` holds string and decimal helpers, and `seqs.dfy` holds filters and group sums over sequences. `wrappers.dfy` holds `Option`, `Result` and `Outcome`.

Modelling choices:
- Calories and servings are exact reals.
- Instants are integers, in milliseconds since the epoch.
- The calendar day of an instant, as `toDateString` gives it, is a parameter `dayOf`. It maps an instant to the start of its day.
- The CSV's date and number texts are the parameters `dateText` and `numText`.
- Meal ids, clock readings and the server's reply are parameters of the operations that use them.
- `calculateCalories`, `login`, `register` and `updateProfile` return the outcome, where the source throws.

## Model

| member | source | states |
|---|---|---|
| MealStore.NewMeal | frontend/src/stores/mealStore.ts:19-27 | the logged meal carries the given id and instant and copies every field of the lookup's answer unchanged |
| MealStore.Capped | frontend/src/stores/mealStore.ts:30 | `slice(0, 100)` keeps a prefix of length min(n, 100) |
| MealStore.WithMeal | frontend/src/stores/mealStore.ts:29-31 | after adding, the new meal is at index 0, the older meals follow in order, and the length is min(old + 1, 100), so the oldest meal is evicted |
| MealStore.WithoutMeal | frontend/src/stores/mealStore.ts:38-42 | no meal with the id remains; every other meal is kept as often as before and in relative order |
| MealStore.RemoveAbsentIdIsNoOp | frontend/src/stores/mealStore.ts:38-42 | removing an id that no meal has leaves the history unchanged |
| MealStore.RemoveIsIdempotent | frontend/src/stores/mealStore.ts:38-42 | removing the same id twice is removing it once |
| MealStore.WithImported | frontend/src/stores/mealStore.ts:259-263 | the new history is the first min(imported + old, 100) meals of the imported meals followed by the older history: the imported meals come first in their own order, with no de-duplication, and the older meals follow them in order |
| MealStore.AddsAreOneImport | frontend/src/stores/mealStore.ts:259-263 | from a history within the limit, adding meals one by one equals importing them all at once, latest first |
| MealStore.HistoryKeepsLatest | frontend/src/stores/mealStore.ts:18-32 | after any number of additions, the history is the latest min(n, 100) meals, most recent first |
| MealStore.Store.constructor | frontend/src/stores/mealStore.ts:14-16 | the store starts with no meals, not loading and no error |
| MealStore.Store.AddMeal | frontend/src/stores/mealStore.ts:18-32 | the history becomes `WithMeal` of the new meal; the flags are untouched; the 100-meal bound holds |
| MealStore.Store.ClearHistory | frontend/src/stores/mealStore.ts:34-36 | the history becomes empty; nothing else changes |
| MealStore.Store.RemoveMeal | frontend/src/stores/mealStore.ts:38-42 | the history becomes `WithoutMeal`; the bound is preserved |
| MealStore.Store.ImportMealHistory | frontend/src/stores/mealStore.ts:259-263 | the history becomes `WithImported`; the bound holds |
| MealStore.Store.CalculateCalories | frontend/src/stores/mealStore.ts:44-63 | the outcome is `apiCall`'s. On success exactly one meal is added via addMeal and the error is cleared; on failure the history is unchanged and the error is the message. Loading ends false either way |
| MealStore.Store.Rehydrate | frontend/src/stores/mealStore.ts:265-270 | restoring the persisted snapshot sets only the history |
| MealStore.ReloadKeepsHistory | frontend/src/stores/mealStore.ts:265-270 | a reloaded store has the same history, is not loading and has no error |
| MealStats.UniqueDishes | frontend/src/stores/mealStore.ts:193-197 | each dish of the history exactly once, nothing else, in order of first appearance |
| MealStats.MealCountByDish | frontend/src/stores/mealStore.ts:199-209 | keys are exactly the dishes eaten; each value is the number of meals of that dish |
| MealStats.TotalCaloriesByDish | frontend/src/stores/mealStore.ts:211-222 | keys are exactly the dishes eaten; each value is the calorie sum of that dish's meals |
| MealStats.MealCountsSumToLength | frontend/src/stores/mealStore.ts:199-209 | the per-dish counts sum to the history's length |
| MealStats.CaloriesByDishSumToTotal | frontend/src/stores/mealStore.ts:211-222 | the per-dish calorie totals sum to the statistics' total calories |
| MealStats.LastMaxIndex | frontend/src/stores/mealStore.ts:93-95 | the `reduce` keeps an entry whose count is at least every other, and every later entry has a strictly smaller count |
| MealStats.MostPopularDish | frontend/src/stores/mealStore.ts:85-95 | the most popular dish of a non-empty history is a dish of that history |
| MealStats.MostPopularDishIsLastMaximum | frontend/src/stores/mealStore.ts:85-95 | the most popular dish was eaten, no dish has more meals, and on a tie the one seen first latest wins |
| MealStats.Mean | frontend/src/stores/mealStore.ts:83 | the average times the number of meals is the total |
| MealStats.GetStats | frontend/src/stores/mealStore.ts:65-120 | an empty history gives zeros, "" and no days; otherwise the meal count, the calorie sum, the mean, the most popular dish and the per-day rollup |
| MealStats.FirstSeven | frontend/src/stores/mealStore.ts:111 | `slice(0, 7)` keeps a prefix of length min(n, 7) |
| MealStats.CaloriesByDay | frontend/src/stores/mealStore.ts:97-111 | at most seven days are reported |
| MealStats.CaloriesByDaySpec | frontend/src/stores/mealStore.ts:97-111 | at most 7 entries, dates strictly descending (so one per day), each a day with meals and carrying that day's calorie sum |
| MealStats.CaloriesByDayKeepsLatest | frontend/src/stores/mealStore.ts:97-111 | every meal's day is listed, unless seven later days fill the list |
| MealStats.MealsByDateRange | frontend/src/stores/mealStore.ts:122-129 | keeps exactly the meals with start ≤ instant ≤ end, in order, with multiplicity |
| MealStats.PeriodMealsAsWritten | frontend/src/stores/mealStore.ts:131-182 | the today, week and month filters as written keep exactly the meals from the period start up to 23:59:59.000 of its last day, that is one second before the next period starts |
| MealStats.LastSecondIsLeftOut | frontend/src/stores/mealStore.ts:138-147 | the today, week and month filters drop every meal logged in the last second of the period |
| MealStats.LastSecondExample | frontend/src/stores/mealStore.ts:138-147 | a meal at 23:59:59.500 of the first day is not among that day's meals |
| MealStats.PeriodMeals | frontend/src/stores/mealStore.ts:131-182 | a meal is kept exactly when its instant falls in [period start, next period start) |
| MealStats.SearchMeals | frontend/src/stores/mealStore.ts:184-191 | keeps exactly the meals whose lower-cased dish name contains the lower-cased query, in order |
| MealStats.EmptyQueryMatchesAll | frontend/src/stores/mealStore.ts:184-191 | the empty query returns the whole history |
| MealStats.ExportCsv | frontend/src/stores/mealStore.ts:224-246 | the CSV text starts with the fixed header line |
| MealStats.ExportCsvLines | frontend/src/stores/mealStore.ts:224-246 | with no newline in any cell, the export has one line per meal after the fixed header, each the comma-joined row of its meal |
| MealStats.CsvLineCells | frontend/src/stores/mealStore.ts:236-245 | a line whose cells hold no comma splits back into its six cells |
| MealStats.CommaInDishNameAddsCell | frontend/src/stores/mealStore.ts:236-245 | with no quoting, a dish name holding a comma makes the line split into seven cells |
| AuthStore.LoginUser | frontend/src/stores/authStore.ts:33-42 | the placeholder user has the credentials' e-mail, the id "temp-user-id", the name "User", and `createdAt` and `updatedAt` from two separate clock readings, which can differ |
| AuthStore.RegisteredUser | frontend/src/stores/authStore.ts:69-78 | the user has the form's names and e-mail, the full name is first + " " + last, and `createdAt` and `updatedAt` come from two separate clock readings |
| AuthStore.OrCurrent | frontend/src/stores/authStore.ts:115 | `update || current`: a present, non-empty update wins |
| AuthStore.ApplyUpdate | frontend/src/stores/authStore.ts:111-118 | each field carried by the update overrides the current one; the full name is rebuilt with the `||` fallback; updatedAt is now |
| AuthStore.FullNameFollowsNames | frontend/src/stores/authStore.ts:111-118 | unless a name is cleared, the full name matches the new names |
| AuthStore.ApplyUpdateIdempotent | frontend/src/stores/authStore.ts:111-118 | unless a name is cleared, the same update applied twice is applied once |
| AuthStore.ClearedNameExample | frontend/src/stores/authStore.ts:113-115 | clearing a name keeps the old name in the full name, and a second identical update changes the full name again |
| AuthStore.Store.constructor | frontend/src/stores/authStore.ts:15-18 | the store starts with no user or token, not authenticated and not loading |
| AuthStore.Store.Snapshot | frontend/src/stores/authStore.ts:134-141 | `partialize` persists the user, the token and the authenticated flag |
| AuthStore.Store.SignIn | frontend/src/stores/authStore.ts:29-49 | the success step shared by login and register: the token is saved and stored, the user is set, authenticated and not loading |
| AuthStore.Store.Rehydrate | frontend/src/stores/authStore.ts:134-141 | restoring the snapshot sets user, token and the authenticated flag, never the loading flag |
| AuthStore.Store.Login | frontend/src/stores/authStore.ts:20-54 | success stores and saves the token and signs in the placeholder user; failure leaves user, token, the flag and storage as they were; loading ends false |
| AuthStore.Store.Register | frontend/src/stores/authStore.ts:56-90 | as login, signing in the user built from the form |
| AuthStore.Store.Logout | frontend/src/stores/authStore.ts:92-103 | whatever the state, no user, no token, not authenticated, not loading, and nothing stored |
| AuthStore.Store.UpdateProfile | frontend/src/stores/authStore.ts:105-119 | with no user it fails with "No user logged in" and changes nothing; otherwise the user becomes `ApplyUpdate` of it |
| AuthStore.Store.Initialize | frontend/src/stores/authStore.ts:121-132 | a non-empty stored token sets it as the token, authenticated and no user; otherwise nothing changes |
| AuthStore.LoginSurvivesReload | frontend/src/stores/authStore.ts:121-132 | after a successful login, a fresh store initialized from the same storage is authenticated with the same token |
| AuthStore.LogoutSurvivesReload | frontend/src/stores/authStore.ts:92-103 | after a logout, a fresh store initialized from the same storage stays signed out |
| AuthStore.ReloadKeepsSession | frontend/src/stores/authStore.ts:134-141 | a store rehydrated from a snapshot has the same user, token and flag, and is not loading |
| UiStore.Store.constructor | frontend/src/stores/uiStore.ts:13-14 | the theme is "system" and the sidebar is closed |
| UiStore.Store.SetTheme | frontend/src/stores/uiStore.ts:16-18 | the theme becomes the argument; the sidebar is unchanged |
| UiStore.Store.ToggleSidebar | frontend/src/stores/uiStore.ts:20-22 | the sidebar flag is negated; the theme is unchanged |
| UiStore.Store.SetSidebarOpen | frontend/src/stores/uiStore.ts:24-26 | the sidebar flag becomes the argument; the theme is unchanged |
| UiStore.ToggleTwiceRestores | frontend/src/stores/uiStore.ts:20-22 | two toggles restore the original state |
| Api.ApiCall | frontend/src/lib/utils.ts:9-144 | success exactly when the base URL is set and the status is 2xx, handing back the body; a missing base URL fails before any request; any other response fails with `ErrorMessage`; a network failure fails with the error's own message, rethrown unchanged |
| Api.ErrorMessage | frontend/src/lib/utils.ts:38-136 | the message for each status, endpoint and body case: 500/404 on the calorie endpoint; for 400, "Email already in use" first, then the e-mail, password, servings and dish-name messages in that order of precedence, then message‖error‖default; 401, 403, 404, 409, 422, 429; and message‖error‖"Request failed with status N" otherwise |
| Api.ErrorMessageEmptyOnlyFromFieldErrors | frontend/src/lib/utils.ts:111-118 | the only empty message comes from a 422 whose field errors have no usable first entry |
| StringUtils.Truncate | frontend/src/lib/utils.ts:200-203 | a short enough string is unchanged; otherwise its first n characters plus "..."; a negative n counts from the end |
| StringUtils.MetaDescription | frontend/src/lib/utils.ts:398-402 | the result never exceeds 160 characters; texts up to 160 are unchanged; longer ones keep 157 characters and an ellipsis |
| StringUtils.Capitalize | frontend/src/lib/utils.ts:196-198 | same length, first character upper-cased, the rest lower-cased |
| StringUtils.CapitalizeIdempotent | frontend/src/lib/utils.ts:196-198 | capitalizing twice is capitalizing once |
| StringUtils.Slugify | frontend/src/lib/utils.ts:205-212 | the slug holds only a-z, 0-9 and '-', never two adjacent hyphens, and exactly the lower-cased input's ASCII letters and digits, in order |
| StringUtils.SlugifyMergesSeparators | frontend/src/lib/utils.ts:205-212 | the slug is the kept text (lower-cased, only a-z, 0-9, space and '-') with every maximal run of spaces and hyphens replaced by one hyphen |
| StringUtils.SlugifyEnds | frontend/src/lib/utils.ts:205-212 | the slug starts (ends) with a hyphen exactly when the kept text starts (ends) with a space or a hyphen; `trim` removes none |
| StringUtils.SlugifyFixesSlugs | frontend/src/lib/utils.ts:205-212 | a string that is already such a slug is its own slug |
| StringUtils.SlugifyIdempotent | frontend/src/lib/utils.ts:205-212 | slugifying twice is slugifying once |
| ArrayUtils.Chunk | frontend/src/lib/utils.ts:305-311 | the chunks concatenate back to the input; every chunk but the last has exactly `size` elements, and the last has 1 to `size` |
| ArrayUtils.Unique | frontend/src/lib/utils.ts:313-315 | every element exactly once, nothing else, in order of first occurrence |
| ArrayUtils.SortBy | frontend/src/lib/utils.ts:317-330 | a permutation of the input, non-decreasing by the key for "asc" and non-increasing for "desc"; the input is a value, so it is not modified |
| ArrayUtils.Pick | frontend/src/lib/utils.ts:333-344 | keys are exactly those both in the object and listed, with their values |
| ArrayUtils.Omit | frontend/src/lib/utils.ts:346-352 | keys are exactly those in the object and not listed, with their values |
| Validation.IsValidEmail | frontend/src/lib/utils.ts:215-218 | transcribes `^[^\s@]+@[^\s@]+\.[^\s@]+$`: some '@' and a later '.' split the text into three non-empty parts, none holding white space (the JavaScript `\s` set) or '@'; so a valid address has at least five characters and neither starts nor ends with white space or '@' |
| Validation.IsValidPassword | frontend/src/lib/utils.ts:220-225 | transcribes the four look-aheads, in which `.*` stops at a line terminator, and `[A-Za-z\d@$!%*?&]{8,}`; so a valid password has at least eight characters and holds no white space or line terminator |
| Validation.IsValidEmailIffRule | frontend/src/lib/utils.ts:215-218 | the pattern accepts exactly: one '@', no white space, a non-empty local part, and a '.' in the domain with text on both sides |
| Validation.IsValidPasswordIffRule | frontend/src/lib/utils.ts:220-225 | the pattern accepts exactly: length ≥ 8, only letters, digits and @$!%*?&, and at least one lower-case letter, one upper-case letter, one digit and one special |
| Display.CalorieBucket | frontend/src/lib/utils.ts:290-302 | the thresholds: below 200, 200 to below 400, 400 to below 600, and 600 up |
| Display.CalorieColor | frontend/src/lib/utils.ts:290-295 | green below 200, yellow below 400, orange below 600, red from 600 |
| Display.CalorieBgColor | frontend/src/lib/utils.ts:297-302 | the matching background classes on the same thresholds |
| Display.CalorieBucketMonotonic | frontend/src/lib/utils.ts:290-302 | more calories never fall in a lower bucket |
| Display.ColorsAgree | frontend/src/lib/utils.ts:290-302 | the text and background colours pick the same bucket: two amounts share one exactly when they share the other |
| Display.ElapsedBucket | frontend/src/lib/utils.ts:170-178 | "just now" under a minute, then whole minutes, hours and days (each count bounded by its floor), then the formatted date from 30 days on |
| Display.TimeAgo | frontend/src/lib/utils.ts:167-179 | with the elapsed whole seconds floored: "just now" under 60, then "Nm ago", "Nh ago" and "Nd ago" with the floored count, and the formatted date from 30 days on |
| Display.DigitGroups | frontend/src/lib/utils.ts:182-184 | digit groups of three from the right: the first holds 1 to 3 digits, the others exactly 3, and together they are the digits |
| Display.FormatNumber | frontend/src/lib/utils.ts:182-184 | the text is non-empty, starts with '-' exactly for a negative number, and otherwise starts with a digit |
| Display.FormatNumberRoundTrip | frontend/src/lib/utils.ts:182-184 | the formatted integer holds digits, commas and a leading minus only, and reads back as the same integer |
| Display.FormatNumberGroups | frontend/src/lib/utils.ts:182-184 | after the sign, the text split on commas is a first group of one to three digits and then groups of exactly three, which together are the magnitude's decimal digits |
| Display.JsRound | frontend/src/lib/utils.ts:187 | `Math.round` lies within a half of its argument, with halves rounded up |
| Display.FormatCalories | frontend/src/lib/utils.ts:186-188 | the text ends in " cal" |
| Display.FormatCaloriesReadsBack | frontend/src/lib/utils.ts:186-188 | before " cal" stands a formatted number that reads back as the rounded amount |
| Display.FormatCaloriesGroups | frontend/src/lib/utils.ts:186-188 | before " cal" stands the rounded amount's sign and its digits grouped in threes by commas |
| DisplayExamples.FormatNumber1000 | frontend/src/lib/__tests__/utils.test.ts:20 | 1000 → "1,000" |
| DisplayExamples.FormatNumber1234567 | frontend/src/lib/__tests__/utils.test.ts:21 | 1234567 → "1,234,567" |
| DisplayExamples.FormatNumber0 | frontend/src/lib/__tests__/utils.test.ts:22 | 0 → "0" |
| DisplayExamples.FormatCalories100 | frontend/src/lib/__tests__/utils.test.ts:7 | 100 → "100 cal" |
| DisplayExamples.FormatCalories1234 | frontend/src/lib/__tests__/utils.test.ts:8 | 1234 → "1,234 cal" |
| DisplayExamples.FormatCalories0 | frontend/src/lib/__tests__/utils.test.ts:9 | 0 → "0 cal" |
| DisplayExamples.FormatCaloriesRounds | frontend/src/lib/__tests__/utils.test.ts:12-15 | 100.7 → "101 cal", 100.3 → "100 cal" |
| DisplayExamples.CapitalizeExamples | frontend/src/lib/__tests__/utils.test.ts:37-42 | "hello" → "Hello", "WORLD" → "World", "tEsT" → "Test" |

## Left out

- Sending the request is not modelled: `fetch`, the headers, the bearer token read from local storage, and JSON decoding of the body. The server's reply is a parameter.
- The logging in `apiCall`'s catch is not modelled. It rethrows, so the outcome is the same.
- The localStorage helpers `getFromStorage`, `setToStorage` and `removeFromStorage` are browser I/O. The `auth_token` entry is modelled as the field `savedToken`.
- The zustand `persist` middleware's storage is not modelled. Its snapshot and rehydration are modelled by `Snapshot`/`Rehydrate`.
- Server-side rendering guards (`typeof window`) are not modelled: a browser is assumed.
- The Blob, object URL and anchor click of the export are DOM effects. Only the CSV text is modelled.
- Meal ids (`Date.now()` and `Math.random()`) and every clock reading are parameters. Each reading is a parameter of its own, so the two readings `login` and `register` take for `createdAt` and `updatedAt` may differ.
- `toDateString` is a parameter `dayOf`; `toLocaleDateString` and `toString` are `dateText` and `numText`. Time zones and daylight saving are not modelled.
- The calendar arithmetic that finds the start of today, of the week and of the month is left out. The period filters take the period's start and the next period's start as parameters.
- Floating point is not modelled: sums and averages use exact reals, with no IEEE rounding, NaN or infinity.
- `Intl.NumberFormat` on fractions is left out. `formatNumber` is modelled on integers, which is all `formatCalories` gives it.
- Also left out:
  - `formatPercentage`, `formatDate` and `formatDateTime`;
  - `debounce` and `throttle` (timers);
  - `cn`, `generateMetaTitle`, `getAnimationDelay` and `getResponsiveValue` (presentation wrappers);
  - `isApiError` and `getErrorMessage` (run-time type inspection).
- Case mapping covers ASCII letters only. Unicode case tables are not modelled.
- The intermediate state `isLoading = true` while a request is in flight is not visible: each operation is one atomic step.
- `calculateCalories` has a fallback message "An error occurred" for a thrown value that is not an `Error`. It is not modelled, because `apiCall` only throws `Error`s.
- Dish names are assumed not integer-like and not `__proto__`. JavaScript objects list integer-like keys first, and that would reorder the most-popular-dish tie-break.
- MealStats.MealCountByDish, MealStats.TotalCaloriesByDish and MealStats.GetStats: dish names are also assumed not to be names of `Object.prototype` members, such as `constructor`, `toString`, `valueOf` or `hasOwnProperty`. For such a name, `acc[name] || 0` starts from an inherited function, and the count or total becomes string concatenation (mealStore.ts:85-111, 199-222). The model starts every dish from zero.
- StringUtils.Truncate: strings are sequences of characters, not of UTF-16 code units. JavaScript's `.length` and `slice` count code units, so `truncate` cuts differently on text holding characters outside the Basic Multilingual Plane, such as emoji. The model is faithful only for text without such characters.
- StringUtils.MetaDescription: the same holds for the 160-character limit of `generateMetaDescription`, which counts UTF-16 code units.
- Nothing prevents two meals from having the same id. The model does not either.
- `ArrayUtils.SortBy`: stability is not stated. Keys are integers; other key types and mixed comparisons are not modelled.
- `ArrayUtils.Pick`/`ArrayUtils.Omit`: `key in obj` on inherited prototype properties and the key order of the result are not modelled.
- ArrayUtils.Chunk: the size is an integer, and it must be positive when the input is non-empty. With a size of zero or less, the source's loop never ends on a non-empty array. Non-integer sizes are left out:
  - `NaN` ends the loop after one pass, giving `[[]]` on a non-empty array;
  - `Infinity` gives one chunk holding the whole array;
  - a fractional size such as 1.5 steps by fractions, and `slice` truncates the bounds, so the chunks differ in length from `size`.
- ArrayUtils.Unique: `new Set` compares elements by identity (SameValueZero), so two distinct objects with equal contents both stay in the source's result. The model compares by value and keeps only the first. It is faithful for strings, numbers and booleans.
- `AuthStore.ApplyUpdate` cannot express an update that sets a field explicitly to `undefined`.
- `MealStore.AddsAreOneImport` requires a history of at most 100 meals, which every store keeps (`Valid`).

## Findings

| source | as written | input that shows it | evidently intended | confidence | as-written member | corrected member |
|---|---|---|---|---|---|---|
| frontend/src/stores/mealStore.ts:138-147 | `getTodayMeals` ends the day at 23:59:59.000 and keeps `timestamp <= end`. `getWeekMeals` (157-164) and `getMonthMeals` (172-179) do the same | a meal logged at 23:59:59.500 today is not among today's meals | every meal of the period, i.e. start ≤ timestamp < start of the next period | high; not executed | MealStats.LastSecondIsLeftOut | MealStats.PeriodMeals |
