/** The coffee machine's ingredient inventory: a count per ingredient name,
    checked before a beverage is accepted, decremented when it is made, and
    topped up (or, with a negative amount, drained) by refill. */
module CoffeeInventory {

  /** The count of an item, 0 for an item the inventory does not know. */
  function Stock(counts: map<string, int>, item: string): int
  {
    if item in counts then counts[item] else 0
  }

  /** The stock a new inventory starts with: 100 of each of the four
      ingredients. */
  function InitialStock(): (counts: map<string, int>)
    ensures counts.Keys == {"CoffeeBeans", "Milk", "Sugar", "Water"}
    ensures forall item :: item in counts ==> counts[item] == 100
  {
    map["CoffeeBeans" := 100, "Milk" := 100, "Sugar" := 100, "Water" := 100]
  }

  /** Every listed item has a positive count; unknown items have none. */
  predicate InStock(counts: map<string, int>, required: seq<string>)
  {
    forall i :: 0 <= i < |required| ==> Stock(counts, required[i]) > 0
  }

  /** Every listed item is known to the inventory. */
  predicate Known(counts: map<string, int>, required: seq<string>)
  {
    forall i :: 0 <= i < |required| ==> required[i] in counts
  }

  /** The counts after taking one of each listed item, in list order, one
      per occurrence. */
  function Consumed(counts: map<string, int>, required: seq<string>): (after: map<string, int>)
    requires Known(counts, required)
    ensures after.Keys == counts.Keys
  {
    if required == [] then counts
    else
      var item := required[0];
      Consumed(counts[item := counts[item] - 1], required[1..])
  }

  /** consume takes exactly as many of each item as it is listed, leaves
      every other count alone, and knows no new item afterwards. */
  lemma {:induction false} ConsumedCounts(counts: map<string, int>, required: seq<string>)
    requires Known(counts, required)
    ensures Consumed(counts, required).Keys == counts.Keys
    ensures forall item :: item in counts ==>
      Consumed(counts, required)[item] == counts[item] - multiset(required)[item]
    decreases |required|
  {
    if required != [] {
      var item := required[0];
      var next := counts[item := counts[item] - 1];
      assert required == [item] + required[1..];
      assert multiset(required) == multiset{item} + multiset(required[1..]);
      ConsumedCounts(next, required[1..]);
    }
  }

  /** Checked and then consumed, a list naming each item once leaves no
      count negative that was not negative before. */
  lemma CheckedConsumeStaysNonNegative(counts: map<string, int>, required: seq<string>)
    requires Known(counts, required) && InStock(counts, required)
    requires forall i, j :: 0 <= i < j < |required| ==> required[i] != required[j]
    requires forall item :: item in counts ==> counts[item] >= 0
    ensures forall item :: item in Consumed(counts, required) ==> Consumed(counts, required)[item] >= 0
  {
    ConsumedCounts(counts, required);
    forall item | item in counts
      ensures multiset(required)[item] <= 1
      ensures multiset(required)[item] == 1 ==> counts[item] > 0
    {
      OnceAtMost(required, item);
      if multiset(required)[item] > 0 {
        var i :| 0 <= i < |required| && required[i] == item;
        assert Stock(counts, required[i]) > 0;
      }
    }
  }

  /** In a list without repeats an item occurs at most once. */
  lemma {:induction false} OnceAtMost(required: seq<string>, item: string)
    requires forall i, j :: 0 <= i < j < |required| ==> required[i] != required[j]
    ensures multiset(required)[item] <= 1
    decreases |required|
  {
    if required != [] {
      assert required == [required[0]] + required[1..];
      OnceAtMost(required[1..], item);
      if required[0] == item {
        assert item !in required[1..];
      }
    }
  }

  /** The check is per item, not per occurrence: one milk left passes the
      check for a double-milk list, and consuming it leaves -1. */
  lemma DoubleMilkOverdraws()
    ensures var counts := InitialStock()["Milk" := 1];
      InStock(counts, ["Milk", "Milk"]) && Consumed(counts, ["Milk", "Milk"])["Milk"] == -1
  {
    var counts := InitialStock()["Milk" := 1];
    var milk := ["Milk", "Milk"];
    assert milk[1..] == ["Milk"] && milk[1..][1..] == [];
    assert Consumed(counts, milk) == Consumed(counts["Milk" := 0], ["Milk"]);
    assert Consumed(counts["Milk" := 0], ["Milk"]) == Consumed(counts["Milk" := -1], []);
  }

  /** Espresso takes coffee beans and water. */
  function EspressoIngredients(): seq<string>
  {
    ["CoffeeBeans", "Water"]
  }

  /** A latte is an espresso with milk and then sugar added. */
  function LatteIngredients(): seq<string>
  {
    EspressoIngredients() + ["Milk"] + ["Sugar"]
  }

  /** An espresso from a new inventory takes one coffee bean and one water. */
  lemma EspressoFromNew()
    ensures Consumed(InitialStock(), EspressoIngredients())
      == map["CoffeeBeans" := 99, "Milk" := 100, "Sugar" := 100, "Water" := 99]
  {
    var espresso := EspressoIngredients();
    ConsumedCounts(InitialStock(), espresso);
    assert multiset(espresso)["CoffeeBeans"] == 1 && multiset(espresso)["Water"] == 1;
  }

  /** A latte takes one of each of the four ingredients. */
  lemma LatteTakesOneEach(counts: map<string, int>)
    requires counts.Keys == {"CoffeeBeans", "Milk", "Sugar", "Water"}
    ensures var after := Consumed(counts, LatteIngredients());
      after.Keys == counts.Keys && forall item :: item in counts ==> after[item] == counts[item] - 1
  {
    var latte := LatteIngredients();
    assert latte == ["CoffeeBeans", "Water", "Milk", "Sugar"];
    var c1 := counts["CoffeeBeans" := counts["CoffeeBeans"] - 1];
    var c2 := c1["Water" := c1["Water"] - 1];
    var c3 := c2["Milk" := c2["Milk"] - 1];
    var c4 := c3["Sugar" := c3["Sugar"] - 1];
    ConsumeOne(counts, latte);
    ConsumeOne(c1, latte[1..]);
    ConsumeOne(c2, latte[2..]);
    ConsumeOne(c3, latte[3..]);
    assert latte[1..][1..] == latte[2..] && latte[2..][1..] == latte[3..] && latte[3..][1..] == [];
    assert Consumed(counts, latte) == c4;
  }

  /** Making an espresso and then a latte from a new inventory takes two
      coffee beans, two water, one milk and one sugar. */
  lemma EspressoThenLatte()
    ensures var made := Consumed(Consumed(InitialStock(), EspressoIngredients()), LatteIngredients());
      made.Keys == {"CoffeeBeans", "Milk", "Sugar", "Water"}
      && made["CoffeeBeans"] == 98 && made["Water"] == 98 && made["Milk"] == 99 && made["Sugar"] == 99
  {
    EspressoFromNew();
    LatteTakesOneEach(map["CoffeeBeans" := 99, "Milk" := 100, "Sugar" := 100, "Water" := 99]);
  }

  /** After those two drinks, a refill of -1000 milk fails the check for an
      espresso with milk and still passes it for a plain espresso. */
  lemma MilkDrained()
    ensures var made := Consumed(Consumed(InitialStock(), EspressoIngredients()), LatteIngredients());
      var drained := made["Milk" := Stock(made, "Milk") - 1000];
      !InStock(drained, EspressoIngredients() + ["Milk"]) && InStock(drained, EspressoIngredients())
  {
    EspressoThenLatte();
    assert (EspressoIngredients() + ["Milk"])[2] == "Milk";
  }

  /** Taking the first listed item leaves the rest of the list known and
      consumes it to the same counts. */
  lemma ConsumeOne(counts: map<string, int>, required: seq<string>)
    requires required != [] && Known(counts, required)
    ensures required[0] in counts
    ensures Known(counts[required[0] := counts[required[0]] - 1], required[1..])
    ensures Consumed(counts, required)
      == Consumed(counts[required[0] := counts[required[0]] - 1], required[1..])
  {
  }

  class Inventory {
    var ingredients: map<string, int>

    /** A new inventory holds 100 of each ingredient. */
    constructor ()
      ensures ingredients == InitialStock()
    {
      ingredients := map["CoffeeBeans" := 100, "Milk" := 100, "Sugar" := 100, "Water" := 100];
    }

    /** checkIngredients: every listed item has a positive count. */
    method CheckIngredients(required: seq<string>) returns (ok: bool)
      ensures ok <==> InStock(ingredients, required)
    {
      for i := 0 to |required|
        invariant forall j :: 0 <= j < i ==> Stock(ingredients, required[j]) > 0
      {
        var count := if required[i] in ingredients then ingredients[required[i]] else 0;
        if count <= 0 {
          return false;
        }
      }
      return true;
    }

    /** consume: one of each listed item per occurrence, with no check that
        the count stays positive. Every item must be known. */
    method Consume(required: seq<string>)
      requires Known(ingredients, required)
      modifies this
      ensures ingredients == Consumed(old(ingredients), required)
    {
      ghost var rest := required;
      for i := 0 to |required|
        invariant rest == required[i..]
        invariant Known(ingredients, rest)
        invariant Consumed(ingredients, rest) == Consumed(old(ingredients), required)
      {
        var item := required[i];
        ConsumeOne(ingredients, rest);
        ingredients := ingredients[item := ingredients[item] - 1];
        rest := rest[1..];
      }
    }

    /** refill: the amount, which may be negative, is added to the item's
        count, an unknown item counting from 0. */
    method Refill(item: string, amount: int)
      modifies this
      ensures ingredients == old(ingredients)[item := Stock(old(ingredients), item) + amount]
    {
      var count := if item in ingredients then ingredients[item] else 0;
      ingredients := ingredients[item := count + amount];
    }
  }
}
