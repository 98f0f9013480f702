/** Turning one reply of the random-meal endpoint into a `Meal`: the
    envelope check (`{"meals": [ {...}, ... ]}`, first element only), the
    five required string fields, and the twenty optional ingredient slots. */
module MealDecoding {
  import opened Options
  import opened Json
  import opened MealRecord

  /** Ingredient slots probed, `strIngredient1` through `strIngredient20`. */
  const IngredientSlots: nat := 20

  predicate IsDigit(c: char) {
    '0' <= c <= '9'
  }

  function Digit(d: nat): (c: char)
    requires d < 10
    ensures IsDigit(c)
  {
    ('0' as int + d) as char
  }

  function DigitValue(c: char): nat
    requires IsDigit(c)
  {
    c as int - '0' as int
  }

  /** Swift's string interpolation of a non-negative integer: a non-empty
      string of decimal digits with no leading zero (except "0" itself). */
  function Decimal(n: nat): (s: string)
    ensures |s| >= 1
    ensures forall i :: 0 <= i < |s| ==> IsDigit(s[i])
    ensures s[0] == '0' ==> n == 0
    decreases n
  {
    if n < 10 then [Digit(n)] else Decimal(n / 10) + [Digit(n % 10)]
  }

  /** The number a string of decimal digits denotes. */
  function DecimalValue(s: string): nat
    requires forall i :: 0 <= i < |s| ==> IsDigit(s[i])
    decreases |s|
  {
    if s == [] then 0 else DecimalValue(s[..|s| - 1]) * 10 + DigitValue(s[|s| - 1])
  }

  /** Reading back the decimal form of `n` gives `n`. */
  lemma {:induction false} DecimalRoundTrip(n: nat)
    ensures DecimalValue(Decimal(n)) == n
    decreases n
  {
    var s := Decimal(n);
    if n < 10 {
      assert s[..0] == [];
    } else {
      assert s[..|s| - 1] == Decimal(n / 10);
      DecimalRoundTrip(n / 10);
    }
  }

  /** `"strIngredient\(n)"` */
  function IngredientKey(n: nat): string {
    "strIngredient" + Decimal(n)
  }

  /** Distinct slot numbers give distinct keys, so the twenty probes read
      twenty different entries of the record. */
  lemma IngredientKeyInjective(m: nat, n: nat)
    ensures IngredientKey(m) == IngredientKey(n) ==> m == n
  {
    if IngredientKey(m) == IngredientKey(n) {
      assert Decimal(m) == IngredientKey(m)[13..];
      assert Decimal(n) == IngredientKey(n)[13..];
      DecimalRoundTrip(m);
      DecimalRoundTrip(n);
    }
  }

  /** `(1...20).map { rec["strIngredient\($0)"] as? String }` */
  function IngredientProbes(rec: Record): (ps: seq<Option<string>>)
    ensures |ps| == IngredientSlots
    ensures forall i :: 0 <= i < IngredientSlots ==> ps[i] == StringField(rec, IngredientKey(i + 1))
  {
    seq(IngredientSlots, i requires 0 <= i < IngredientSlots => StringField(rec, IngredientKey(i + 1)))
  }

  /** The ingredient list of a meal record: the string-valued slots among
      `strIngredient1` .. `strIngredient20`, in ascending slot order.
      Absent and non-string slots are skipped; empty strings are kept. */
  function Ingredients(rec: Record): (r: seq<string>)
    ensures |r| <= IngredientSlots
    ensures var ps := SomePositions(IngredientProbes(rec));
      && |ps| == |r|
      && (forall k :: 0 <= k < |r| ==>
            ps[k] < IngredientSlots && StringField(rec, IngredientKey(ps[k] + 1)) == Some(r[k]))
      && (forall k, l :: 0 <= k < l < |r| ==> ps[k] < ps[l])
      && (forall n :: 1 <= n <= IngredientSlots && StringField(rec, IngredientKey(n)).Some? ==> n - 1 in ps)
  {
    var probes := IngredientProbes(rec);
    SomePositionsAscending(probes);
    SomePositionsCover(probes);
    assert forall n :: 1 <= n <= IngredientSlots && StringField(rec, IngredientKey(n)).Some? ==>
      probes[n - 1].Some?;
    CompactMap(probes)
  }

  /** All five required keys (idMeal, strMeal, strCategory,
      strInstructions, strMealThumb) hold strings. */
  predicate HasRequiredFields(rec: Record) {
    && StringField(rec, "idMeal").Some?
    && StringField(rec, "strMeal").Some?
    && StringField(rec, "strCategory").Some?
    && StringField(rec, "strInstructions").Some?
    && StringField(rec, "strMealThumb").Some?
  }

  /** The guard on the five required fields and the construction of the
      `Meal`: a meal exists exactly when all five are strings, and then its
      fields are those strings and its ingredients those of the record. */
  function MealFromRecord(rec: Record): (r: Option<Meal>)
    ensures r.Some? <==> HasRequiredFields(rec)
    ensures r.Some? ==>
      && r.value.idMeal == rec["idMeal"].s
      && r.value.strMeal == rec["strMeal"].s
      && r.value.strCategory == rec["strCategory"].s
      && r.value.strInstructions == rec["strInstructions"].s
      && r.value.strMealThumb == rec["strMealThumb"].s
      && r.value.ingredients == Ingredients(rec)
  {
    var idMeal :- StringField(rec, "idMeal");
    var strMeal :- StringField(rec, "strMeal");
    var strCategory :- StringField(rec, "strCategory");
    var strInstructions :- StringField(rec, "strInstructions");
    var strMealThumb :- StringField(rec, "strMealThumb");
    Some(Meal(idMeal, strMeal, strCategory, strInstructions, strMealThumb, Ingredients(rec)))
  }

  /** The reply is a JSON object whose "meals" entry is an array of objects. */
  predicate IsMealsEnvelope(p: Payload) {
    && p.Parsed?
    && p.root.Object?
    && "meals" in p.root.fields
    && p.root.fields["meals"].Array?
    && forall i :: 0 <= i < |p.root.fields["meals"].items| ==> p.root.fields["meals"].items[i].Object?
  }

  function MealItems(p: Payload): seq<Value>
    requires IsMealsEnvelope(p)
  {
    p.root.fields["meals"].items
  }

  /** The envelope guard: the top level must be an object, "meals" an array
      of objects, and that array non-empty; the result is its first element. */
  function FirstMealRecord(p: Payload): (r: Option<Record>)
    ensures r.Some? <==> IsMealsEnvelope(p) && |MealItems(p)| > 0
    ensures r.Some? ==> r.value == MealItems(p)[0].fields
  {
    match p
    case Malformed => None
    case Parsed(root) =>
      var top :- AsObject(root);
      var meals :- if "meals" in top then AsObjectArray(top["meals"]) else None;
      if |meals| == 0 then None else Some(meals[0])
  }

  /** One reply decoded to a meal, or nothing. A meal comes out only when
      the body parses, the envelope is well-shaped and non-empty, and its
      first element carries the five required strings. */
  function DecodeMeal(p: Payload): (r: Option<Meal>)
    ensures p.Malformed? ==> r.None?
    ensures p.Parsed? && !p.root.Object? ==> r.None?
    ensures p.Parsed? && p.root.Object? && "meals" !in p.root.fields ==> r.None?
    ensures r.Some? <==> IsMealsEnvelope(p) && |MealItems(p)| > 0 && HasRequiredFields(MealItems(p)[0].fields)
    ensures r.Some? ==> r == MealFromRecord(MealItems(p)[0].fields)
  {
    var rec :- FirstMealRecord(p);
    MealFromRecord(rec)
  }

  /** Only the first element of the "meals" array is read: two well-shaped
      replies whose arrays start with the same object decode alike, whatever
      follows it. */
  lemma DecodeConsultsOnlyFirst(p: Payload, q: Payload)
    requires IsMealsEnvelope(p) && IsMealsEnvelope(q)
    requires |MealItems(p)| > 0 && |MealItems(q)| > 0
    requires MealItems(p)[0] == MealItems(q)[0]
    ensures DecodeMeal(p) == DecodeMeal(q)
  {
  }

  /** A reply whose "meals" array is empty, or holds a non-object anywhere
      (even after a good first element), decodes to nothing. */
  lemma DecodeRejectsBadArray(p: Payload)
    requires p.Parsed? && p.root.Object? && "meals" in p.root.fields
    requires var m := p.root.fields["meals"];
      !m.Array? || |m.items| == 0 || exists i :: 0 <= i < |m.items| && !m.items[i].Object?
    ensures DecodeMeal(p).None?
  {
  }

  /** Slots 5 and beyond have keys unlike those of slots 1, 2 and 4. */
  lemma LaterKeysDiffer(n: nat)
    requires 5 <= n
    ensures IngredientKey(n) !in {"strIngredient1", "strIngredient2", "strIngredient4"}
  {
    if n < 10 {
      assert Decimal(n) == [Digit(n)];
      assert IngredientKey(n)[13] == Digit(n);
      assert "strIngredient1"[13] == '1' && "strIngredient2"[13] == '2' && "strIngredient4"[13] == '4';
    } else {
      assert |IngredientKey(n)| > |"strIngredient1"|;
    }
  }

  /** A record with ingredient slot 1 "Salt", slot 2 "", slot 3 absent,
      slot 4 "Pepper", and nothing after. */
  function SparseRecord(): Record {
    map[
      "strIngredient1" := Str("Salt"),
      "strIngredient2" := Str(""),
      "strIngredient4" := Str("Pepper")]
  }

  lemma SparseProbes()
    ensures IngredientProbes(SparseRecord()) ==
      [Some("Salt"), Some(""), None, Some("Pepper")] + seq(IngredientSlots - 4, _ => None)
  {
    var rec := SparseRecord();
    var probes := IngredientProbes(rec);
    assert IngredientKey(1) == "strIngredient1" && IngredientKey(2) == "strIngredient2";
    assert IngredientKey(3) == "strIngredient3" && IngredientKey(4) == "strIngredient4";
    forall i | 4 <= i < IngredientSlots
      ensures probes[i] == None
    {
      LaterKeysDiffer(i + 1);
    }
  }

  lemma NonEmptyExample()
    ensures NonEmpty(["Salt", "", "Pepper"]) == ["Salt", "Pepper"]
  {
    var xs := ["Salt", "", "Pepper"];
    assert xs[1..][1..] == ["Pepper"];
    assert NonEmpty(xs[1..][1..]) == ["Pepper"];
    assert NonEmpty(xs[1..]) == ["Pepper"];
  }

  lemma SparseHead()
    ensures CompactMap([Some("Salt"), Some(""), None, Some("Pepper")]) == ["Salt", "", "Pepper"]
  {
    var head: seq<Option<string>> := [Some("Salt"), Some(""), None, Some("Pepper")];
    assert head[..3][..2][..1] == [Some("Salt")];
    assert head[..3][..2] == [Some("Salt"), Some("")];
    assert head[..3] == [Some("Salt"), Some(""), None];
    assert CompactMap(head[..3][..2][..1]) == ["Salt"];
    assert CompactMap(head[..3][..2]) == ["Salt", ""];
    assert CompactMap(head[..3]) == ["Salt", ""];
  }

  /** The sparse-slot example: the ingredient list skips the absent slot
      but keeps the empty string; the non-empty view drops it. */
  lemma SparseIngredientsExample()
    ensures Ingredients(SparseRecord()) == ["Salt", "", "Pepper"]
    ensures NonEmpty(Ingredients(SparseRecord())) == ["Salt", "Pepper"]
  {
    var head: seq<Option<string>> := [Some("Salt"), Some(""), None, Some("Pepper")];
    var tail: seq<Option<string>> := seq(IngredientSlots - 4, _ => None);
    assert CompactMap(head + tail) == ["Salt", "", "Pepper"] by {
      SparseHead();
      CompactMapNone(tail);
      CompactMapAppend(head, tail);
    }
    assert Ingredients(SparseRecord()) == CompactMap(head + tail) by {
      SparseProbes();
    }
    NonEmptyExample();
  }
}
