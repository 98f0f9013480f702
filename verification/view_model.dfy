/** The view-model's `fetchMeals`: the URL guard, a fixed batch of requests,
    and the completion handler whose effects are serialised on the main
    queue. Requests run concurrently, but every write the completion
    handler makes is posted to the main queue, so a batch acts as a
    left fold of the handler over the completions in arrival order. Each
    completion is first classified into an `Outcome`; the fold runs over
    those outcomes. */
module MealsViewModel {
  import opened Options
  import opened Json
  import opened MealRecord
  import opened MealDecoding

  /** Requests per call in MealsViewModel.swift. */
  const ViewModelBatchSize: nat := 20

  /** Requests per call in the copy kept in ContentView.swift. */
  const ContentViewBatchSize: nat := 10

  /** What a data task passes its completion handler: the body, if any,
      and whether an error was reported. The URL response is unused. */
  datatype Completion = Completion(data: Option<Payload>, failed: bool)

  /** The three ways a completion can end. */
  datatype Outcome = TransportFailure | Dropped | Fetched(meal: Meal)

  /** The observable state: `meals` and `hasInternetAccess`. */
  datatype ViewState = ViewState(meals: seq<Meal>, hasInternetAccess: bool)

  /** A freshly created view-model. */
  const Initial: ViewState := ViewState([], true)

  /** `guard let data = data, error == nil` fails. */
  predicate IsTransportFailure(c: Completion) {
    c.data.None? || c.failed
  }

  /** The guard lets a completion through exactly when it carries data and
      no error, whatever the data is. */
  lemma TransportGuard(c: Completion)
    ensures c.data.None? ==> IsTransportFailure(c)
    ensures c.failed ==> IsTransportFailure(c)
    ensures c.data.Some? && !c.failed ==> !IsTransportFailure(c)
  {
  }

  /** How the handler treats one completion: a transport failure, a body
      that does not yield a meal (silently dropped), or a meal. */
  function Classify(c: Completion): (o: Outcome)
    ensures o.TransportFailure? <==> IsTransportFailure(c)
    ensures o.Dropped? <==> !IsTransportFailure(c) && DecodeMeal(c.data.value).None?
    ensures o.Fetched? ==> Some(o.meal) == DecodeMeal(c.data.value)
  {
    if IsTransportFailure(c) then TransportFailure
    else
      match DecodeMeal(c.data.value)
      case Some(m) => Fetched(m)
      case None => Dropped
  }

  /** The outcomes of a run of completions, one per completion, in order. */
  function Outcomes(cs: seq<Completion>): (os: seq<Outcome>)
    ensures |os| == |cs|
    ensures forall i :: 0 <= i < |cs| ==> os[i] == Classify(cs[i])
  {
    seq(|cs|, i requires 0 <= i < |cs| => Classify(cs[i]))
  }

  /** The meal an outcome carries, if any. */
  function MealOption(o: Outcome): Option<Meal> {
    if o.Fetched? then Some(o.meal) else None
  }

  function MealOptions(os: seq<Outcome>): (xs: seq<Option<Meal>>)
    ensures |xs| == |os|
    ensures forall i :: 0 <= i < |os| ==> xs[i] == MealOption(os[i])
  {
    seq(|os|, i requires 0 <= i < |os| => MealOption(os[i]))
  }

  /** The meals a run of outcomes yields, in arrival order: in effect a
      `compactMap` over the outcomes, which drops transport failures and
      dropped replies. */
  function FetchedMeals(os: seq<Outcome>): (r: seq<Meal>)
    ensures |r| <= |os|
  {
    CompactMap(MealOptions(os))
  }

  /** A meal is among those a run yields exactly when some outcome of the
      run fetched it. */
  lemma FetchedMealsMembers(os: seq<Outcome>)
    ensures forall m :: m in FetchedMeals(os) <==> Fetched(m) in os
  {
    var xs := MealOptions(os);
    CompactMapMembers(xs);
    forall m
      ensures Some(m) in xs <==> Fetched(m) in os
    {
      if Some(m) in xs {
        var i :| 0 <= i < |xs| && xs[i] == Some(m);
        assert os[i] == Fetched(m);
      }
      if Fetched(m) in os {
        var i :| 0 <= i < |os| && os[i] == Fetched(m);
        assert xs[i] == Some(m);
      }
    }
  }

  /** The k-th meal a run yields comes from the outcome at position
      `ps[k]`; those positions ascend, and every fetched outcome is among
      them: the meals appear exactly once each, in arrival order. */
  lemma FetchedMealsSources(os: seq<Outcome>)
    ensures |SomePositions(MealOptions(os))| == |FetchedMeals(os)|
    ensures forall k :: 0 <= k < |FetchedMeals(os)| ==>
      SomePositions(MealOptions(os))[k] < |os| && os[SomePositions(MealOptions(os))[k]] == Fetched(FetchedMeals(os)[k])
    ensures forall k, l :: 0 <= k < l < |FetchedMeals(os)| ==>
      SomePositions(MealOptions(os))[k] < SomePositions(MealOptions(os))[l]
    ensures forall i :: 0 <= i < |os| && os[i].Fetched? ==> i in SomePositions(MealOptions(os))
  {
    var xs := MealOptions(os);
    SomePositionsAscending(xs);
    SomePositionsCover(xs);
    forall i | 0 <= i < |os| && os[i].Fetched?
      ensures xs[i].Some?
    {
    }
  }

  /** No outcome in `os` is a transport failure. */
  predicate AllReached(os: seq<Outcome>) {
    forall i :: 0 <= i < |os| ==> !os[i].TransportFailure?
  }

  /** The flag condition of a run is that of all but its last outcome,
      and that last outcome itself. */
  lemma AllReachedSnoc(os: seq<Outcome>)
    requires os != []
    ensures AllReached(os) <==> AllReached(os[..|os| - 1]) && !os[|os| - 1].TransportFailure?
  {
  }

  /** The main-queue effect of one outcome: the flag is cleared exactly on
      a transport failure, and the list gains exactly the outcome's meal,
      if it has one. */
  function Apply(s: ViewState, o: Outcome): (r: ViewState)
    ensures r.hasInternetAccess <==> s.hasInternetAccess && !o.TransportFailure?
    ensures r.meals == s.meals + FetchedMeals([o])
  {
    assert MealOptions([o]) == [MealOption(o)];
    assert [MealOption(o)][..0] == [];
    match o
    case TransportFailure => s.(hasInternetAccess := false)
    case Dropped => s
    case Fetched(m) => s.(meals := s.meals + [m])
  }

  /** The completion handler, per completion: no data or an error clears
      the flag and adds nothing; a body that yields no meal changes
      nothing; a decoded meal is appended and the flag is kept. */
  lemma HandleCompletion(s: ViewState, c: Completion)
    ensures IsTransportFailure(c) ==> Apply(s, Classify(c)) == s.(hasInternetAccess := false)
    ensures !IsTransportFailure(c) && DecodeMeal(c.data.value).None? ==> Apply(s, Classify(c)) == s
    ensures !IsTransportFailure(c) && DecodeMeal(c.data.value).Some? ==>
      Apply(s, Classify(c)) == s.(meals := s.meals + [DecodeMeal(c.data.value).value])
  {
  }

  /** A batch of outcomes applied in arrival order. The list grows by
      exactly the fetched meals, in arrival order; the flag ends true
      exactly when it started true and no outcome was a transport failure. */
  function Fold(s: ViewState, os: seq<Outcome>): (r: ViewState)
    ensures r.meals == s.meals + FetchedMeals(os)
    ensures r.hasInternetAccess <==> s.hasInternetAccess && AllReached(os)
    decreases |os|
  {
    if os == [] then s
    else
      AllReachedSnoc(os);
      assert os == os[..|os| - 1] + [os[|os| - 1]];
      FetchedMealsAppend(os[..|os| - 1], [os[|os| - 1]]);
      Apply(Fold(s, os[..|os| - 1]), os[|os| - 1])
  }

  /** Number of requests one call issues: none when the URL does not parse,
      otherwise the batch size. */
  function Attempts(urlValid: bool, batchSize: nat): (n: nat)
    ensures urlValid ==> n == batchSize
    ensures !urlValid ==> n == 0
  {
    if urlValid then batchSize else 0
  }

  /** One call of `fetchMeals` together with the completions of the requests
      it issued, in arrival order. An invalid URL clears the flag and
      issues nothing; otherwise the whole batch is folded in. */
  function FetchMeals(s: ViewState, urlValid: bool, batchSize: nat, arrivals: seq<Completion>): (r: ViewState)
    requires |arrivals| == Attempts(urlValid, batchSize)
    ensures !urlValid ==> r == s.(hasInternetAccess := false)
    ensures urlValid ==> r.meals == s.meals + FetchedMeals(Outcomes(arrivals))
    ensures urlValid ==> (r.hasInternetAccess <==> s.hasInternetAccess && AllReached(Outcomes(arrivals)))
    ensures s.meals <= r.meals
    ensures |r.meals| <= |s.meals| + batchSize
  {
    if !urlValid then s.(hasInternetAccess := false)
    else Fold(s, Outcomes(arrivals))
  }

  /** The meals of two consecutive runs are those of the first followed by
      those of the second. */
  lemma FetchedMealsAppend(a: seq<Outcome>, b: seq<Outcome>)
    ensures FetchedMeals(a + b) == FetchedMeals(a) + FetchedMeals(b)
  {
    assert MealOptions(a + b) == MealOptions(a) + MealOptions(b);
    CompactMapAppend(MealOptions(a), MealOptions(b));
  }

  /** A run in which every outcome is a meal loses none of them. */
  lemma FetchedMealsAllFetched(os: seq<Outcome>)
    requires forall i :: 0 <= i < |os| ==> os[i].Fetched?
    ensures |FetchedMeals(os)| == |os|
  {
    CompactMapAllPresent(MealOptions(os));
  }

  /** A run of transport failures yields no meal. */
  lemma FetchedMealsAllFailed(os: seq<Outcome>)
    requires forall i :: 0 <= i < |os| ==> os[i].TransportFailure?
    ensures FetchedMeals(os) == []
  {
    CompactMapNone(MealOptions(os));
  }

  /** The flag condition splits over consecutive runs. */
  lemma AllReachedAppend(a: seq<Outcome>, b: seq<Outcome>)
    ensures AllReached(a + b) <==> AllReached(a) && AllReached(b)
  {
    if AllReached(a + b) {
      forall i | 0 <= i < |a|
        ensures !a[i].TransportFailure?
      {
        assert a[i] == (a + b)[i];
      }
      forall i | 0 <= i < |b|
        ensures !b[i].TransportFailure?
      {
        assert b[i] == (a + b)[|a| + i];
      }
    }
  }

  /** Two runs applied one after the other act as their concatenation:
      the fold resumes where the first run left it. */
  lemma FoldConcat(s: ViewState, a: seq<Outcome>, b: seq<Outcome>)
    ensures Fold(s, a + b) == Fold(Fold(s, a), b)
  {
    var l, r := Fold(s, a + b), Fold(Fold(s, a), b);
    assert l.meals == r.meals by {
      FetchedMealsAppend(a, b);
      assert s.meals + (FetchedMeals(a) + FetchedMeals(b)) == s.meals + FetchedMeals(a) + FetchedMeals(b);
    }
    assert l.hasInternetAccess == r.hasInternetAccess by {
      AllReachedAppend(a, b);
    }
  }

  /** From a fresh view-model, the flag after the first batch says exactly
      whether no request failed in transport, and the list holds exactly
      the fetched meals. */
  lemma FirstBatch(os: seq<Outcome>)
    ensures Fold(Initial, os).hasInternetAccess <==> AllReached(os)
    ensures Fold(Initial, os).meals == FetchedMeals(os)
  {
  }

  /** Once the flag is false it stays false, after every prefix of a run. */
  lemma FlagIsSticky(s: ViewState, os: seq<Outcome>)
    requires !s.hasInternetAccess
    ensures forall k :: 0 <= k <= |os| ==> !Fold(s, os[..k]).hasInternetAccess
  {
  }

  /** Removing the last element of `xs` and a matching element of `ys`
      from two permutations of each other leaves permutations. */
  lemma RemoveMatching<T>(xs: seq<T>, ys: seq<T>, k: nat)
    requires multiset(xs) == multiset(ys)
    requires xs != [] && k < |ys| && ys[k] == xs[|xs| - 1]
    ensures multiset(xs[..|xs| - 1]) == multiset(ys[..k] + ys[k + 1..])
  {
    var n := |xs| - 1;
    var x := xs[n];
    assert xs == xs[..n] + [x];
    assert multiset(xs) == multiset(xs[..n]) + multiset{x};
    assert ys == ys[..k] + [x] + ys[k + 1..];
    assert multiset(ys) == multiset(ys[..k]) + multiset{x} + multiset(ys[k + 1..]);
    assert multiset(ys[..k] + ys[k + 1..]) == multiset(ys[..k]) + multiset(ys[k + 1..]);
    var a, b := multiset(xs[..n]), multiset(ys[..k]) + multiset(ys[k + 1..]);
    assert a + multiset{x} == b + multiset{x};
    forall y
      ensures a[y] == b[y]
    {
      assert (a + multiset{x})[y] == a[y] + multiset{x}[y];
      assert (b + multiset{x})[y] == b[y] + multiset{x}[y];
    }
  }

  /** The fetched meals depend only on the multiset of outcomes, up to
      the order of the meals. */
  lemma {:induction false} FetchedMealsPermutation(os: seq<Outcome>, ps: seq<Outcome>)
    requires multiset(os) == multiset(ps)
    ensures multiset(FetchedMeals(os)) == multiset(FetchedMeals(ps))
    decreases |os|
  {
    if os == [] {
      assert |ps| == |multiset(ps)| == 0;
    } else {
      var n := |os| - 1;
      var x := os[n];
      assert os == os[..n] + [x];
      assert x in multiset(ps);
      var k :| 0 <= k < |ps| && ps[k] == x;
      var before, after := ps[..k], ps[k + 1..];
      assert ps == before + [x] + after by {
        assert ps[..k + 1] == before + [x];
        assert ps == ps[..k + 1] + after;
      }
      RemoveMatching(os, ps, k);
      FetchedMealsPermutation(os[..n], before + after);
      FetchedMealsAppend(os[..n], [x]);
      FetchedMealsAppend(before, [x]);
      FetchedMealsAppend(before + [x], after);
      FetchedMealsAppend(before, after);
    }
  }

  /** A run with no transport failure stays so under any reordering. */
  lemma AllReachedTransfers(os: seq<Outcome>, ps: seq<Outcome>)
    requires multiset(os) == multiset(ps)
    requires AllReached(os)
    ensures AllReached(ps)
  {
    forall i | 0 <= i < |ps|
      ensures !ps[i].TransportFailure?
    {
      assert ps[i] in multiset(os);
    }
  }

  /** Whether some transport failure occurred does not depend on order. */
  lemma AllReachedPermutation(os: seq<Outcome>, ps: seq<Outcome>)
    requires multiset(os) == multiset(ps)
    ensures AllReached(os) <==> AllReached(ps)
  {
    if AllReached(os) {
      AllReachedTransfers(os, ps);
    }
    if AllReached(ps) {
      AllReachedTransfers(ps, os);
    }
  }

  /** Arrival order is a race, but it does not matter up to order: any
      reordering of the same outcomes ends with the same flag and the same
      meals, as a multiset. */
  lemma FoldOrderIndependent(s: ViewState, os: seq<Outcome>, ps: seq<Outcome>)
    requires multiset(os) == multiset(ps)
    ensures Fold(s, os).hasInternetAccess == Fold(s, ps).hasInternetAccess
    ensures multiset(Fold(s, os).meals) == multiset(Fold(s, ps).meals)
  {
    FetchedMealsPermutation(os, ps);
    AllReachedPermutation(os, ps);
  }

  /** Classifying two consecutive runs of completions. */
  lemma OutcomesAppend(a: seq<Completion>, b: seq<Completion>)
    ensures Outcomes(a + b) == Outcomes(a) + Outcomes(b)
  {
  }

  /** Reordering the completions reorders their outcomes. */
  lemma {:induction false} OutcomesPermutation(cs: seq<Completion>, ds: seq<Completion>)
    requires multiset(cs) == multiset(ds)
    ensures multiset(Outcomes(cs)) == multiset(Outcomes(ds))
    decreases |cs|
  {
    if cs == [] {
      assert |ds| == |multiset(ds)| == 0;
    } else {
      var n := |cs| - 1;
      var x := cs[n];
      assert cs == cs[..n] + [x];
      assert x in multiset(ds);
      var k :| 0 <= k < |ds| && ds[k] == x;
      var before, after := ds[..k], ds[k + 1..];
      assert ds == before + [x] + after by {
        assert ds[..k + 1] == before + [x];
        assert ds == ds[..k + 1] + after;
      }
      RemoveMatching(cs, ds, k);
      OutcomesPermutation(cs[..n], before + after);
      OutcomesAppend(cs[..n], [x]);
      OutcomesAppend(before, [x]);
      OutcomesAppend(before + [x], after);
      OutcomesAppend(before, after);
    }
  }

  /** One call of `fetchMeals` ends the same, up to the order of the meals,
      whichever order its completions arrive in. */
  lemma FetchOrderIndependent(s: ViewState, batchSize: nat, cs: seq<Completion>, ds: seq<Completion>)
    requires |cs| == batchSize
    requires multiset(cs) == multiset(ds)
    ensures |ds| == batchSize
    ensures FetchMeals(s, true, batchSize, cs).hasInternetAccess == FetchMeals(s, true, batchSize, ds).hasInternetAccess
    ensures multiset(FetchMeals(s, true, batchSize, cs).meals) == multiset(FetchMeals(s, true, batchSize, ds).meals)
  {
    assert |ds| == |multiset(ds)| == |cs|;
    OutcomesPermutation(cs, ds);
    FoldOrderIndependent(s, Outcomes(cs), Outcomes(ds));
  }

  /** When every request of a batch yields a meal, the list grows by the
      whole batch and the flag is untouched. */
  lemma AllFetched(s: ViewState, os: seq<Outcome>)
    requires forall i :: 0 <= i < |os| ==> os[i].Fetched?
    ensures |Fold(s, os).meals| == |s.meals| + |os|
    ensures Fold(s, os).hasInternetAccess == s.hasInternetAccess
  {
    FetchedMealsAllFetched(os);
  }

  /** A batch of `ok` meals and `failed` transport failures, arriving in any
      interleaving: exactly the `ok` meals are added and the flag ends false. */
  lemma MixedBatch(s: ViewState, ok: seq<Outcome>, failed: seq<Outcome>, arrivals: seq<Outcome>)
    requires forall i :: 0 <= i < |ok| ==> ok[i].Fetched?
    requires forall i :: 0 <= i < |failed| ==> failed[i].TransportFailure?
    requires |failed| > 0
    requires multiset(arrivals) == multiset(ok + failed)
    ensures |Fold(s, arrivals).meals| == |s.meals| + |ok|
    ensures multiset(Fold(s, arrivals).meals) == multiset(s.meals + FetchedMeals(ok))
    ensures !Fold(s, arrivals).hasInternetAccess
  {
    FoldOrderIndependent(s, arrivals, ok + failed);
    FoldConcat(s, ok, failed);
    AllFetched(s, ok);
    FetchedMealsAllFailed(failed);
    assert |multiset(Fold(s, arrivals).meals)| == |multiset(Fold(s, ok + failed).meals)|;
  }

  /** `fetchMeals` as written in MealsViewModel.swift: twenty requests. */
  lemma ViewModelFetch(s: ViewState, arrivals: seq<Completion>)
    requires |arrivals| == ViewModelBatchSize
    ensures Attempts(true, ViewModelBatchSize) == 20
    ensures FetchMeals(s, true, ViewModelBatchSize, arrivals).meals == s.meals + FetchedMeals(Outcomes(arrivals))
    ensures |FetchMeals(s, true, ViewModelBatchSize, arrivals).meals| <= |s.meals| + 20
    ensures FetchMeals(s, true, ViewModelBatchSize, arrivals).hasInternetAccess <==>
      s.hasInternetAccess && forall i :: 0 <= i < |arrivals| ==> !IsTransportFailure(arrivals[i])
  {
  }

  /** The copy of `fetchMeals` in ContentView.swift: ten requests. */
  lemma ContentViewFetch(s: ViewState, arrivals: seq<Completion>)
    requires |arrivals| == ContentViewBatchSize
    ensures Attempts(true, ContentViewBatchSize) == 10
    ensures FetchMeals(s, true, ContentViewBatchSize, arrivals).meals == s.meals + FetchedMeals(Outcomes(arrivals))
    ensures |FetchMeals(s, true, ContentViewBatchSize, arrivals).meals| <= |s.meals| + 10
    ensures FetchMeals(s, true, ContentViewBatchSize, arrivals).hasInternetAccess <==>
      s.hasInternetAccess && forall i :: 0 <= i < |arrivals| ==> !IsTransportFailure(arrivals[i])
  {
  }

  /** An unparsable URL: no request is issued, the flag goes false and the
      list is kept as it was (it is not cleared). */
  lemma InvalidUrl(s: ViewState, batchSize: nat)
    ensures Attempts(false, batchSize) == 0
    ensures FetchMeals(s, false, batchSize, []).meals == s.meals
    ensures !FetchMeals(s, false, batchSize, []).hasInternetAccess
  {
  }

  /** Calls do not start afresh: when the first call's completions have
      all arrived before the second call, the second appends to what the
      first left, exactly as if both batches had arrived as one run. */
  lemma FetchTwiceAccumulates(s: ViewState, batchSize: nat, a: seq<Completion>, b: seq<Completion>)
    requires |a| == batchSize && |b| == batchSize
    ensures FetchMeals(FetchMeals(s, true, batchSize, a), true, batchSize, b) == Fold(s, Outcomes(a + b))
    ensures FetchMeals(FetchMeals(s, true, batchSize, a), true, batchSize, b).meals ==
      s.meals + FetchedMeals(Outcomes(a)) + FetchedMeals(Outcomes(b))
  {
    OutcomesAppend(a, b);
    FoldConcat(s, Outcomes(a), Outcomes(b));
  }

  /** Calls whose batches overlap in time: the completions of both calls
      arrive interleaved. The flag and the meals, as a multiset, are those
      of the two calls one after the other; the order of the meals may
      differ. */
  lemma OverlappingCalls(s: ViewState, batchSize: nat, a: seq<Completion>, b: seq<Completion>, arrivals: seq<Completion>)
    requires |a| == batchSize && |b| == batchSize
    requires multiset(arrivals) == multiset(a + b)
    ensures Fold(s, Outcomes(arrivals)).hasInternetAccess ==
      FetchMeals(FetchMeals(s, true, batchSize, a), true, batchSize, b).hasInternetAccess
    ensures multiset(Fold(s, Outcomes(arrivals)).meals) ==
      multiset(FetchMeals(FetchMeals(s, true, batchSize, a), true, batchSize, b).meals)
  {
    FetchTwiceAccumulates(s, batchSize, a, b);
    OutcomesPermutation(arrivals, a + b);
    FoldOrderIndependent(s, Outcomes(arrivals), Outcomes(a + b));
  }
}
