/** The frontend's selections as requests to the backend: the checkboxes name exactly the
    catalog's items, and a selection built by toggling them is one in which the quirks of
    duplicated names cannot arise. */
module Integration {
  import opened Seqs
  import opened Catalog
  import opened Lp
  import opened DietModel
  import opened Interpret
  import opened Selector

  /** The checkboxes offer exactly the catalog's items. */
  lemma FoodItemsAreCatalog()
    ensures forall v :: v in FoodItems <==> v in FoodData
    ensures NoDuplicates(FoodItems)
  {
  }

  /** A selection the frontend can send always builds and, once solved, gets a response; its objective charges each selected
      item its cost once; and at any non-negative point `total_cost` is the objective. */
  lemma UiSelectionBuildsCleanly(clicks: seq<string>, x: map<string, real>)
    requires forall c :: c in clicks ==> c in FoodItems
    ensures Build(FoodData, SelectionAfter(clicks)).Success?
    ensures Covers(x, SelectionAfter(clicks)) ==> Optimize(FoodData, SelectionAfter(clicks), x).Success?
    ensures forall i :: i in SelectionAfter(clicks) ==>
      Coef(Build(FoodData, SelectionAfter(clicks)).value.objective, i) == FoodData[i].cost
    ensures Covers(x, SelectionAfter(clicks)) && (forall i :: i in SelectionAfter(clicks) ==> x[i] >= 0.0) ==>
      && Covers(x, Build(FoodData, SelectionAfter(clicks)).value.names)
      && TotalCost(FoodData, SelectionAfter(clicks), x) == ObjectiveValue(Build(FoodData, SelectionAfter(clicks)).value, x)
  {
    var sel := SelectionAfter(clicks);
    SelectionAfterWithinFoodItems(clicks);
    FoodItemsAreCatalog();
    assert Known(FoodData, sel);
    SelectionAfterNoDuplicates(clicks);
    BuildSuccess(FoodData, sel);
    forall i | i in sel
      ensures Coef(Build(FoodData, sel).value.objective, i) == FoodData[i].cost
    {
      BuildObjective(FoodData, sel, i);
      CountOfDistinct(sel, i);
    }
    if Covers(x, sel) && (forall i :: i in sel ==> x[i] >= 0.0) {
      TotalCostIsObjective(FoodData, sel, x);
    }
  }
}
