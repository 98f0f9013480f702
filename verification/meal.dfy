/** The `Meal` record and its derived `nonEmptyIngredients` view. */
module MealRecord {

  /** One recipe as the app stores it. The `UUID` the app stamps on each
      value for SwiftUI's `Identifiable` is not modelled. */
  datatype Meal = Meal(
    idMeal: string,
    strMeal: string,
    strCategory: string,
    strInstructions: string,
    strMealThumb: string,
    ingredients: seq<string>)

  /** `xs.filter { !$0.isEmpty }`: the non-empty strings of `xs`, in order.
      Its contents are exactly those of `xs` with every "" removed. */
  function NonEmpty(xs: seq<string>): (r: seq<string>)
    ensures forall i :: 0 <= i < |r| ==> r[i] != ""
    ensures multiset(r) == multiset(xs)["" := 0]
  {
    if xs == [] then []
    else
      assert xs == [xs[0]] + xs[1..];
      if xs[0] == "" then NonEmpty(xs[1..]) else [xs[0]] + NonEmpty(xs[1..])
  }

  /** The ingredient list a detail view shows: the meal's ingredients
      with every empty string removed, and nothing else. */
  function NonEmptyIngredients(m: Meal): (r: seq<string>)
    ensures forall i :: 0 <= i < |r| ==> r[i] != ""
    ensures multiset(r) == multiset(m.ingredients)["" := 0]
  {
    NonEmpty(m.ingredients)
  }

  /** `a` can be obtained from `b` by deleting elements (greedy matching,
      which is complete for this question). */
  predicate IsSubsequence<T(==)>(a: seq<T>, b: seq<T>)
    decreases |b|
  {
    if a == [] then true
    else if b == [] then false
    else if a[0] == b[0] then IsSubsequence(a[1..], b[1..])
    else IsSubsequence(a, b[1..])
  }

  /** Filtering keeps the relative order of the survivors. */
  lemma {:induction false} NonEmptyIsSubsequence(xs: seq<string>)
    ensures IsSubsequence(NonEmpty(xs), xs)
  {
    if xs != [] {
      NonEmptyIsSubsequence(xs[1..]);
      if xs[0] != "" {
        assert ([xs[0]] + NonEmpty(xs[1..]))[1..] == NonEmpty(xs[1..]);
      } else {
        var r := NonEmpty(xs[1..]);
        if r != [] {
          assert r[0] != xs[0];
        }
      }
    }
  }

  /** Every non-empty entry survives, and the view is as long as the
      number of non-empty entries, hence never longer than the list. */
  lemma {:induction false} NonEmptyLength(xs: seq<string>)
    ensures forall x :: x in xs && x != "" ==> x in NonEmpty(xs)
    ensures |NonEmpty(xs)| == |xs| - multiset(xs)[""]
    ensures |NonEmpty(xs)| <= |xs|
  {
    if xs != [] {
      assert xs == [xs[0]] + xs[1..];
      NonEmptyLength(xs[1..]);
      forall x | x in xs && x != ""
        ensures x in NonEmpty(xs)
      {
        assert x in multiset(xs);
      }
    }
  }

  /** A list without empty strings is its own non-empty view. */
  lemma {:induction false} NonEmptyIdentity(xs: seq<string>)
    requires forall i :: 0 <= i < |xs| ==> xs[i] != ""
    ensures NonEmpty(xs) == xs
  {
    if xs != [] {
      NonEmptyIdentity(xs[1..]);
      assert xs == [xs[0]] + xs[1..];
    }
  }

  /** Filtering the view again changes nothing. */
  lemma {:induction false} NonEmptyIdempotent(xs: seq<string>)
    ensures NonEmpty(NonEmpty(xs)) == NonEmpty(xs)
  {
    NonEmptyIdentity(NonEmpty(xs));
  }
}
