/** The fixed nutrition catalog `food_data` of the backend. */
module Catalog {

  datatype Nutrient = Protein | Fat | Carb | Phos | VitC | Calcium

  /** A column of the catalog: the per-unit cost or one nutrient. */
  datatype Column = CostColumn | NutrientColumn(nutrient: Nutrient)

  /** One catalog row: per-unit cost and per-unit nutrient amounts. */
  datatype Food = Food(cost: real, protein: real, fat: real, carb: real,
                       phos: real, vitC: real, calcium: real)

  /** `food_data[item][column]` for an item whose row is `f`. */
  function Attribute(f: Food, c: Column): real
  {
    match c
    case CostColumn => f.cost
    case NutrientColumn(n) =>
      match n
      case Protein => f.protein
      case Fat => f.fat
      case Carb => f.carb
      case Phos => f.phos
      case VitC => f.vitC
      case Calcium => f.calcium
  }

  /** A catalog: item name to its row. */
  type Table = map<string, Food>

  /** `food_data`: the three items the backend knows. */
  const FoodData: Table := map[
    "Paneer Toast" := Food(60.0, 8.0, 10.0, 28.0, 200.0, 6.0, 150.0),
    "Grilled Sandwich" := Food(70.0, 6.0, 8.5, 35.0, 120.0, 7.0, 50.0),
    "Aloo Samosa" := Food(10.0, 4.0, 11.0, 32.0, 100.0, 10.0, 30.0)
  ]

  /** Every name in `items` has a row in `cat`, so `cat[item]` cannot raise. */
  predicate Known(cat: Table, items: seq<string>)
  {
    forall i :: i in items ==> i in cat
  }

  /** Every cost and every nutrient amount in `cat` is non-negative. */
  ghost predicate NonNegative(cat: Table)
  {
    forall name, c :: name in cat ==> Attribute(cat[name], c) >= 0.0
  }

  lemma FoodDataNonNegative()
    ensures NonNegative(FoodData)
  {
  }
}
