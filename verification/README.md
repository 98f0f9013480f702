# FlavourFusion meal fetching, modelled in Dafny

FlavourFusion is a SwiftUI app that shows a grid of random recipes from
TheMealDB. Its one piece of real logic is `MealsViewModel.fetchMeals`:
it fires a fixed batch of requests at the random-meal endpoint, decodes
each reply into a `Meal`, and folds the outcomes into two observable
properties, `meals` and `hasInternetAccess`. This project models that
logic as pure functions and proves what it guarantees.

- `options.dfy` (`Options`): Swift's `Optional` and `compactMap`, used both for the ingredient slots and for the meals a batch yields. `SomePositions` gives the position each kept value came from.
- `json.dfy` (`Json`): a decoded JSON value, the outcome of `JSONSerialization` (a value, or a throw), and the conditional casts the code applies.
- `meal.dfy` (`MealRecord`): the `Meal` record and its `nonEmptyIngredients` filter.
- `decoding.dfy` (`MealDecoding`): the envelope check (`{"meals": [...]}`, first element only), the five required string fields, and the twenty ingredient slots.
- `view_model.dfy` (`MealsViewModel`): how a completion is classified (transport failure, dropped reply, or decoded meal), the fold of a batch of such outcomes in arrival order, and `fetchMeals` with its URL guard and batch size.

Requests run concurrently, but the handler posts every write to the main
queue. So the effect of a batch is a left fold of the handler over the
completions, taken in the order they arrive. The model first classifies
each completion into an outcome and then folds the outcomes. Arrival order
is a race, so the model takes it as a parameter and proves that the result
does not depend on it up to permutation (`FoldOrderIndependent` for
outcomes, `FetchOrderIndependent` for a whole call).

`ContentView.swift` repeats `Meal` (lines 12-24) and `MealsViewModel`
(lines 28-92) word for word, except that its batch holds 10 requests
instead of 20. One model covers both, with the batch size as a parameter.
`ViewModelFetch` and `ContentViewFetch` pin the two constants.

Three behaviours of the code worth knowing:
- A call does not clear `meals`: each batch is appended to what earlier calls left (`FetchTwiceAccumulates`).
- An invalid URL sets the flag to false and leaves `meals` as it was; it does not empty the list (`InvalidUrl`).
- The cast `as? [[String: Any]]` checks every element of the array. So a reply whose later elements are not objects is rejected, even though only the first element is used (`DecodeRejectsBadArray`).

## Model

| member | source | states |
|---|---|---|
| Options.CompactMap | FlavourFusion/MealsViewModel.swift:54 | `compactMap` is never longer than its input |
| Options.SomePositions | FlavourFusion/MealsViewModel.swift:54 | the k-th value `compactMap` keeps is the payload of a present entry of the input, at a known position |
| Options.SomePositionsAscending | FlavourFusion/MealsViewModel.swift:54 | those positions are strictly ascending, so `compactMap` keeps input order |
| Options.SomePositionsCover | FlavourFusion/MealsViewModel.swift:54 | every present entry of the input is among those positions, so `compactMap` loses no present value |
| Options.CompactMapMembers | FlavourFusion/MealsViewModel.swift:54 | a value is kept by `compactMap` exactly when it is present somewhere in the input |
| Json.AsObject | FlavourFusion/MealsViewModel.swift:38 | the cast of the top level to a dictionary succeeds exactly when the value is a JSON object, and yields its fields |
| Json.StringField | FlavourFusion/MealsViewModel.swift:45-49 | `rec[key] as? String` succeeds exactly when the key is present and holds a string, and yields that string; absent keys, null, booleans, numbers, arrays and objects all fail |
| Json.AsObjectArray | FlavourFusion/MealsViewModel.swift:39 | the cast to an array of dictionaries succeeds exactly when the value is an array and every element is an object; it keeps length and element order |
| MealRecord.NonEmpty | FlavourFusion/Meal.swift:19-21 | the filtered view holds no empty string; as a multiset it equals the ingredients with every empty string removed |
| MealRecord.NonEmptyIngredients | FlavourFusion/Meal.swift:19-21 | a meal's `nonEmptyIngredients` holds no empty string and, as a multiset, is its ingredients with every empty string removed |
| MealRecord.NonEmptyIsSubsequence | FlavourFusion/Meal.swift:19-21 | the filtered view is an order-preserving subsequence of the ingredients |
| MealRecord.NonEmptyLength | FlavourFusion/Meal.swift:19-21 | every non-empty ingredient survives; the view's length is the ingredient count minus the number of empty strings, so it is at most the ingredient count |
| MealRecord.NonEmptyIdentity | FlavourFusion/Meal.swift:19-21 | when no ingredient is empty, the view equals the ingredient list |
| MealRecord.NonEmptyIdempotent | FlavourFusion/ContentView.swift:21-23 | filtering the view a second time changes nothing |
| MealDecoding.Decimal | FlavourFusion/MealsViewModel.swift:54 | the interpolated slot number is a non-empty string of decimal digits with no leading zero |
| MealDecoding.DecimalRoundTrip | FlavourFusion/MealsViewModel.swift:54 | reading the interpolated digits back gives the slot number |
| MealDecoding.IngredientKeyInjective | FlavourFusion/MealsViewModel.swift:54 | distinct slot numbers give distinct `strIngredient` keys, so the probes read distinct entries |
| MealDecoding.IngredientProbes | FlavourFusion/MealsViewModel.swift:54 | twenty probes; probe i is the `as? String` cast of the record's `strIngredient(i+1)` entry, over `1...20` in order |
| MealDecoding.Ingredients | FlavourFusion/MealsViewModel.swift:54 | at most 20 ingredients; entry k is the string held by slot `strIngredient(p+1)`, with p strictly ascending; every string-valued slot among 1..20 contributes, including empty strings; absent and non-string slots contribute nothing |
| MealDecoding.MealFromRecord | FlavourFusion/MealsViewModel.swift:45-60 | a meal is built exactly when all five required keys hold strings; its five fields are those strings and its ingredients are the record's ingredient list |
| MealDecoding.FirstMealRecord | FlavourFusion/MealsViewModel.swift:38-43 | a record is found exactly when the body is a JSON object whose "meals" entry is a non-empty array of objects; the record is the first element |
| MealDecoding.DecodeMeal | FlavourFusion/MealsViewModel.swift:37-67 | no meal from an undecodable body, a non-object top level or a missing "meals" key; a meal exactly when the envelope is well-shaped and non-empty and its first element has the five required strings; then the meal is the one built from that element |
| MealDecoding.DecodeConsultsOnlyFirst | FlavourFusion/ContentView.swift:55-57 | two well-shaped replies whose arrays start with the same object decode to the same result |
| MealDecoding.DecodeRejectsBadArray | FlavourFusion/MealsViewModel.swift:39-43 | a "meals" entry that is not an array, is empty, or holds a non-object anywhere yields no meal |
| MealDecoding.SparseIngredientsExample | FlavourFusion/MealsViewModel.swift:54 | slots "Salt", "", absent, "Pepper" give ingredients ["Salt", "", "Pepper"] and the non-empty view ["Salt", "Pepper"] |
| MealsViewModel.TransportGuard | FlavourFusion/MealsViewModel.swift:30 | the guard fails when data is missing or an error is reported, and lets the completion through exactly when it has data and no error, whatever the data |
| MealsViewModel.Classify | FlavourFusion/MealsViewModel.swift:30-52 | a completion is a transport failure exactly when it has no data or reports an error; otherwise it yields a meal exactly when the body decodes to one, and is dropped otherwise |
| MealsViewModel.Apply | FlavourFusion/MealsViewModel.swift:30-64 | one outcome clears the flag exactly when it is a transport failure, and appends exactly the meals that outcome yields (none, or its one meal) |
| MealsViewModel.HandleCompletion | FlavourFusion/MealsViewModel.swift:30-64 | per completion: no data or an error sets the flag to false and adds nothing; a body that decodes to no meal changes nothing; a decoded meal is appended and the flag is kept |
| MealsViewModel.FetchedMeals | FlavourFusion/MealsViewModel.swift:62-64 | a batch never appends more meals than it has outcomes (its contents are pinned by the two rows below) |
| MealsViewModel.FetchedMealsAppend | FlavourFusion/MealsViewModel.swift:62-64 | the meals of two consecutive runs of outcomes are the first run's meals followed by the second's |
| MealsViewModel.FetchedMealsMembers | FlavourFusion/MealsViewModel.swift:62-64 | a meal reaches the list exactly when some outcome of the batch fetched it |
| MealsViewModel.FetchedMealsSources | FlavourFusion/MealsViewModel.swift:62-64 | the k-th meal a batch adds comes from a fetched outcome at a known position; those positions ascend and cover every fetched outcome, so each fetched meal is added once, in arrival order |
| MealsViewModel.Fold | FlavourFusion/MealsViewModel.swift:27-68 | after a batch, `meals` is the prior list followed by the `compactMap` of the outcomes to their meals, that is the fetched meals in arrival order; the flag is true exactly when it was true before and no outcome was a transport failure |
| MealsViewModel.FetchMeals | FlavourFusion/MealsViewModel.swift:15-24 | an invalid URL only sets the flag to false; otherwise the batch is folded in; `meals` only grows, by at most the batch size |
| MealsViewModel.Attempts | FlavourFusion/MealsViewModel.swift:15-24 | a call issues exactly the batch size of requests when the URL parses, and none when it does not |
| MealsViewModel.FoldConcat | FlavourFusion/MealsViewModel.swift:62-64 | applying two runs of outcomes one after the other equals applying their concatenation |
| MealsViewModel.FirstBatch | FlavourFusion/MealsViewModel.swift:12-13 | from a fresh view-model, the flag after a batch is true exactly when no request failed in transport, and the list is exactly the decoded meals |
| MealsViewModel.FlagIsSticky | FlavourFusion/MealsViewModel.swift:30-35 | once the flag is false it is false after every prefix of any batch |
| MealsViewModel.FetchedMealsPermutation | FlavourFusion/MealsViewModel.swift:62-64 | reordering the outcomes permutes the meals they yield and changes nothing else about them |
| MealsViewModel.AllReachedPermutation | FlavourFusion/MealsViewModel.swift:30-35 | whether some outcome is a transport failure does not depend on arrival order |
| MealsViewModel.FoldOrderIndependent | FlavourFusion/MealsViewModel.swift:24-68 | any two arrival orders of the same outcomes give the same flag and the same meals as a multiset |
| MealsViewModel.FetchOrderIndependent | FlavourFusion/MealsViewModel.swift:24-68 | one call of `fetchMeals` ends with the same flag and the same meals as a multiset whichever order its completions arrive in |
| MealsViewModel.AllFetched | FlavourFusion/MealsViewModel.swift:24-64 | when every request yields a meal, the list grows by the whole batch and the flag is unchanged |
| MealsViewModel.MixedBatch | FlavourFusion/ContentView.swift:41-84 | a batch of successes and at least one transport failure, in any interleaving, adds exactly the successes' meals and ends with the flag false |
| MealsViewModel.ViewModelFetch | FlavourFusion/MealsViewModel.swift:24 | a call with a parsing URL issues exactly 20 requests, and appends exactly the decoded meals, at most 20, and leaves the flag true exactly when it was true and no request failed in transport |
| MealsViewModel.ContentViewFetch | FlavourFusion/ContentView.swift:41 | the copy issues exactly 10 requests, and appends exactly the decoded meals, at most 10, with the same flag rule |
| MealsViewModel.InvalidUrl | FlavourFusion/ContentView.swift:33-37 | an invalid URL issues no request, sets the flag to false and keeps `meals` unchanged |
| MealsViewModel.FetchTwiceAccumulates | FlavourFusion/MealsViewModel.swift:12-24 | when the first call's completions have all arrived before the second call, the second call appends to the first call's result, exactly as if both batches had arrived as one run |
| MealsViewModel.OverlappingCalls | FlavourFusion/ContentView.swift:113-115 | when two calls overlap, so that their completions arrive interleaved, the flag and the meals as a multiset are those of the two calls one after the other |

## Left out

- SwiftUI presentation (`ContentView.body`, `MealItem`, `MealDetailView`, `AsyncImage`, navigation, colours): it has no logic to state.
- `Color(hex:)`: it relies on Foundation's `Scanner` and on floating-point division.
- `URLSession`, `DispatchGroup` and `DispatchQueue.main.async` are not modelled as concurrency. A batch is the sequence of its completions in arrival order, one per request issued. `group.notify` only logs, so it is left out.
- Calls that overlap in time (`onAppear` can fire again while a batch is still in flight) are the fold over the interleaved outcomes of both batches. The meals may then come in a different order from two calls one after the other; `OverlappingCalls` states what is kept.
- Byte-level JSON parsing: a body is either `Malformed` (the parser throws) or an already-decoded JSON value.
- JSON numbers are integers in the model. The code never reads a number; it only needs a number to fail the `as? String` cast.
- Duplicate keys in a JSON object are not represented: an object is a map.
- The HTTP response object handed to the completion handler is ignored by the code, and so by the model.
- The `UUID` each `Meal` gets for `Identifiable` is left out, so two meals with equal fields are equal in the model.
- `print` logging is left out.
- The URL string is a literal, so whether `URL(string:)` accepts it is a boolean parameter, not a parser.
