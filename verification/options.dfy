/** Optional values and Swift's `compactMap`, which the app applies twice:
    to the twenty ingredient probes of a meal record, and (in effect) to
    the outcomes of a batch of requests, of which only the decoded meals
    reach the list. */
module Options {

  /** Swift's `Optional`: a value or nothing. Usable with `:-`. */
  datatype Option<+T> = None | Some(value: T) {

    predicate IsFailure() {
      None?
    }

    function PropagateFailure<U>(): Option<U>
      requires None?
    {
      None
    }

    function Extract(): T
      requires Some?
    {
      value
    }
  }

  /** The payloads of the `Some` entries of `xs`, in the order they occur;
      the `None` entries are skipped. */
  function CompactMap<T>(xs: seq<Option<T>>): (r: seq<T>)
    ensures |r| <= |xs|
  {
    if xs == [] then []
    else
      var init := xs[..|xs| - 1];
      assert xs == init + [xs[|xs| - 1]];
      match xs[|xs| - 1]
      case Some(v) => CompactMap(init) + [v]
      case None => CompactMap(init)
  }

  /** The indices of the `Some` entries of `xs`, each one the source of
      the matching element of `CompactMap(xs)`. */
  function SomePositions<T>(xs: seq<Option<T>>): (ps: seq<nat>)
    ensures |ps| == |CompactMap(xs)|
    ensures forall k :: 0 <= k < |ps| ==> ps[k] < |xs| && xs[ps[k]] == Some(CompactMap(xs)[k])
  {
    if xs == [] then []
    else
      var init := xs[..|xs| - 1];
      assert xs == init + [xs[|xs| - 1]];
      if xs[|xs| - 1].Some? then SomePositions(init) + [|xs| - 1] else SomePositions(init)
  }

  /** The positions are strictly ascending: `compactMap` keeps order. */
  lemma {:induction false} SomePositionsAscending<T>(xs: seq<Option<T>>)
    ensures forall k, l :: 0 <= k < l < |SomePositions(xs)| ==> SomePositions(xs)[k] < SomePositions(xs)[l]
  {
    if xs != [] {
      var init := xs[..|xs| - 1];
      var prev := SomePositions(init);
      SomePositionsAscending(init);
      var ps := SomePositions(xs);
      assert ps == if xs[|xs| - 1].Some? then prev + [|xs| - 1] else prev;
      forall k, l | 0 <= k < l < |ps|
        ensures ps[k] < ps[l]
      {
        assert ps[k] == prev[k] && prev[k] < |init|;
        if l < |prev| {
          assert ps[l] == prev[l];
          assert prev[k] < prev[l];
        } else {
          assert ps[l] == |init|;
        }
      }
    }
  }

  /** The positions cover every `Some` entry: `compactMap` loses no
      present value. */
  lemma {:induction false} SomePositionsCover<T>(xs: seq<Option<T>>)
    ensures forall i :: 0 <= i < |xs| && xs[i].Some? ==> i in SomePositions(xs)
  {
    if xs != [] {
      var init := xs[..|xs| - 1];
      var prev := SomePositions(init);
      SomePositionsCover(init);
      var ps := SomePositions(xs);
      assert ps == if xs[|xs| - 1].Some? then prev + [|xs| - 1] else prev;
      forall i | 0 <= i < |xs| && xs[i].Some?
        ensures i in ps
      {
        if i < |init| {
          assert init[i] == xs[i];
          assert i in prev;
          var j :| 0 <= j < |prev| && prev[j] == i;
          assert ps[j] == i;
        } else {
          assert ps[|ps| - 1] == i;
        }
      }
    }
  }

  /** A value is kept exactly when it is present somewhere in the input. */
  lemma CompactMapMembers<T>(xs: seq<Option<T>>)
    ensures forall v :: v in CompactMap(xs) <==> Some(v) in xs
  {
    var r, ps := CompactMap(xs), SomePositions(xs);
    SomePositionsCover(xs);
    forall v
      ensures v in r <==> Some(v) in xs
    {
      if v in r {
        var k :| 0 <= k < |r| && r[k] == v;
        assert xs[ps[k]] == Some(v);
      }
      if Some(v) in xs {
        var i :| 0 <= i < |xs| && xs[i] == Some(v);
        var k :| 0 <= k < |ps| && ps[k] == i;
        assert r[k] == v;
      }
    }
  }

  /** `compactMap` distributes over concatenation. */
  lemma {:induction false} CompactMapAppend<T>(a: seq<Option<T>>, b: seq<Option<T>>)
    ensures CompactMap(a + b) == CompactMap(a) + CompactMap(b)
    decreases |b|
  {
    if b == [] {
      assert a + b == a;
    } else {
      var b' := b[..|b| - 1];
      assert (a + b)[..|a + b| - 1] == a + b';
      CompactMapAppend(a, b');
    }
  }

  /** When every entry is present nothing is dropped. */
  lemma {:induction false} CompactMapAllPresent<T>(xs: seq<Option<T>>)
    requires forall i :: 0 <= i < |xs| ==> xs[i].Some?
    ensures |CompactMap(xs)| == |xs|
  {
    if xs != [] {
      CompactMapAllPresent(xs[..|xs| - 1]);
    }
  }

  /** When every entry is absent nothing is kept. */
  lemma CompactMapNone<T>(xs: seq<Option<T>>)
    requires forall i :: 0 <= i < |xs| ==> xs[i].None?
    ensures CompactMap(xs) == []
  {
    if xs != [] {
      CompactMapNone(xs[..|xs| - 1]);
    }
  }
}
