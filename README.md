# Diet optimiser: the linear program and its reading, in Dafny

The backend's `POST /optimize` takes a list of item names and builds a linear program
(PuLP): one non-negative continuous variable per distinct name, an objective minimising
cost, and six `>=` rows. The rows are the nutrient floors: protein 55, fat 46,
carbohydrate 180, phosphorus 700, vitamin C 70 and calcium 800. Each per-item value comes
from the three-item `food_data` table. After the solve, the backend reads back
`result`, the names whose value is strictly positive, and `total_cost`, the cost summed
over the keys of `result`. The frontend keeps a list of selected names. Changing a
checkbox removes that item from the list when it is there, and appends it otherwise.

The project models these parts:

- `Catalog` holds `food_data`. Its rows are records of reals, and the catalog is a map
  from name to row.
- `Lp` holds the PuLP vocabulary the backend uses:
  - variables with bounds;
  - affine expressions as maps from variable name to coefficient;
  - `lpSum` as a left fold that adds the coefficients of repeated variables;
  - the `LpProblem` object as a class whose `+=` sets the objective or appends a
    constraint;
  - evaluation and feasibility.
- `DietModel` is the construction in `optimize_diet`. `Build` is the same construction
  as a value, and `BuildProblem` is the construction on the problem object. Both are
  stated for any catalog, and the endpoint uses `FoodData`.
- `Interpret` is the reading of solver values into the response.
- `Selector` is the checkbox list.
- `Integration` relates what the frontend can send to what the backend does with it.

The solver is not modelled. Its output is the parameter `x`, a map from variable name to
value. Every lemma about the response says what holds for the `x` it is given. One such
`x` is a feasible one, that is, `Feasible(Build(cat, sel).value, x)`.

Behaviour of the code worth knowing:

- There is no check for an empty selection. An empty list builds an LP that no point
  satisfies (`EmptySelectionInfeasible`). When given any values, the response reads back
  as an empty selection at cost 0 (`EmptySelectionResult`).
- Unknown names are not rejected up front. The lookup `food_data[item]` in the
  objective's list raises `KeyError` on the first unknown name, in selection order. The
  model turns this into the error `UnknownItem(name)`. FastAPI turns the unhandled
  exception into a 500 response.
- The solver status is never inspected. Whatever values the solver leaves are read back
  (`Optimize` has no status input).
- There are six nutrient rows.
- The filter on solver values is an exact `> 0`.
- Duplicate names count once per occurrence. `food_vars` has one key per name, but every
  list comprehension walks the raw selection. A name selected k times therefore gets k
  times its coefficient in the objective and in every row (`RowCoef`, `BuildObjective`,
  `BuildConstraints`). Those contracts state the multiplicity with `Times` (k copies
  added up), which `TimesIsProduct` equates with k times the value. `total_cost` is
  summed over the distinct kept names (`TotalCostIsDistinctCost`). So with duplicates
  `total_cost` differs from the objective (`DuplicateSelectionQuirk`). The returned
  quantities can also miss a floor at a feasible point (`DuplicateSelectionMissesFloor`).
- The frontend never sends duplicates (`SelectionAfterNoDuplicates`). For its selections
  `total_cost` equals the objective (`UiSelectionBuildsCleanly`), and a feasible point's
  returned quantities meet every floor (`ResultMeetsRequirements`).

## Model

| member | source | states |
|---|---|---|
| `Catalog.FoodData` | backend/app/main.py:22-26 | definition, no contract: the three rows of `food_data`, value for value; its properties are in `FoodDataNonNegative` and `Integration.FoodItemsAreCatalog` |
| `Catalog.FoodDataNonNegative` | backend/app/main.py:22-26 | every cost and nutrient amount in `food_data` is non-negative |
| `Seqs.DedupDistinct` | backend/app/main.py:33 | the dict's key order lists every selected name, and none twice |
| `Seqs.DedupOfDistinct` | backend/app/main.py:33 | for a selection without duplicates the key order is the selection itself |
| `DietModel.FoodVars` | backend/app/main.py:33 | definition, no contract: one `LpVariable(item, lowBound=0)` per distinct selected name; its properties are in `BuildVariables` |
| `DietModel.FirstUnknown` | backend/app/main.py:36 | none is found exactly when every name is in the catalog; otherwise the name found is unknown, and every name before it is known |
| `DietModel.Terms` | backend/app/main.py:36 | the comprehension list has one term per selected name, in selection order, on that name's variable |
| `DietModel.Requirements` | backend/app/main.py:39-44 | definition, no contract: the six floors in order; spelled out by `ConstraintsSpelledOut` |
| `DietModel.Row` | backend/app/main.py:36-44 | definition, no contract: `lpSum` of one column's list; its coefficients are in `RowCoef` |
| `DietModel.Constraints` | backend/app/main.py:39-44 | definition, no contract: one `>=` row per floor, in order; its properties are in `ConstraintsSpelledOut` and `BuildConstraints` |
| `DietModel.Build` | backend/app/main.py:30-44 | definition, no contract: the problem handed to the solver, or the `KeyError`; its properties are in `BuildSuccess`, `BuildFailsOnUnknown`, `BuildVariables`, `BuildObjective`, `BuildConstraints` and `FeasibleIffRequirementsMet` |
| `DietModel.BuildSuccess` | backend/app/main.py:30-44 | with every name known, construction succeeds with a minimising objective, variables = one per distinct name, objective = cost row, constraints = the six floors |
| `DietModel.BuildFailsOnUnknown` | backend/app/main.py:36 | construction fails exactly when some name is unknown, and the error names the first one in selection order |
| `DietModel.BuildProblem` | backend/app/main.py:30-44 | the problem object ends up with the name "DietOptimization", minimising, with the objective and constraints of `Build`; an unknown name gives `Build`'s error |
| `DietModel.AddRequirementRows` | backend/app/main.py:39-44 | the six `+=` calls append exactly the six floors in order and leave the objective alone |
| `DietModel.ConstraintsSpelledOut` | backend/app/main.py:39-44 | the rows are protein >= 55, fat >= 46, carb >= 180, phos >= 700, vitC >= 70, calcium >= 800, in this order |
| `DietModel.TimesIsProduct` | backend/app/main.py:36 | k copies of a per-unit value add up to k times that value |
| `DietModel.TermsCoef` | backend/app/main.py:36 | a name's total coefficient in the list is its number of occurrences times its catalog value; a name not selected has none |
| `DietModel.RowCoef` | backend/app/main.py:36 | after `lpSum` the coefficient of a name is its multiplicity in the selection times its per-unit value; names outside the selection get 0 |
| `DietModel.BuildVariables` | backend/app/main.py:33 | the variables are exactly the selected names, distinct, each `LpVariable(name, lowBound=0)` continuous with no upper bound |
| `DietModel.BuildObjective` | backend/app/main.py:36 | the objective's coefficient on a name is its multiplicity times its cost |
| `DietModel.BuildConstraints` | backend/app/main.py:39-44 | there are six constraints; the k-th has the k-th floor on the right, and on the left each name's nutrient amount times its multiplicity |
| `DietModel.FeasibleIffRequirementsMet` | backend/app/main.py:33-44 | a point is feasible iff every selected name is non-negative and every nutrient list sums to at least its floor |
| `DietModel.ObjectiveIsCostList` | backend/app/main.py:36 | the objective's value at a point is the sum of the cost list at that point |
| `DietModel.EmptySelectionInfeasible` | backend/app/main.py:39 | with an empty selection no point satisfies the protein row |
| `Lp.LpSum` | backend/app/main.py:36 | definition, no contract: `lpSum` as terms added one after the other; its properties are in `LpSumCoef` and `LpSumValue` |
| `Lp.LpSumCoef` | backend/app/main.py:36 | `lpSum` gives each variable the total of its terms' coefficients |
| `Lp.LpSumValue` | backend/app/main.py:36 | the value of an `lpSum` over the problem's distinct variables equals the value of its list of terms |
| `Lp.EvalAddTerm` | backend/app/main.py:36 | adding one term to an expression adds that term's value, once |
| `Lp.TermsValuePositive` | backend/app/main.py:50-51 | at non-negative values, dropping the terms at zero leaves the sum unchanged, at any point that agrees on the rest |
| `Lp.TermsValueNonNegative` | backend/app/main.py:51 | non-negative coefficients at non-negative values give a non-negative sum |
| `Lp.LpProblem.constructor` | backend/app/main.py:30 | a new problem has the given name and sense, no objective and no constraints |
| `Lp.LpProblem.SetObjective` | backend/app/main.py:36 | `problem += expression` sets the objective and keeps the constraints |
| `Lp.LpProblem.AddConstraint` | backend/app/main.py:39 | `problem += constraint` appends the constraint and keeps the objective |
| `Interpret.PositiveOnly` | backend/app/main.py:50 | a name is kept exactly when it is listed and its value is strictly positive |
| `Interpret.PositiveOnlyDistinct` | backend/app/main.py:50 | filtering keeps the names distinct |
| `Interpret.OptimalSelection` | backend/app/main.py:50 | `result` has exactly the selected names with a strictly positive value as keys, each mapped to its solver value |
| `Interpret.KeptNames` | backend/app/main.py:50 | the keys of `result` are the selected names with a strictly positive value, each once |
| `Interpret.ResultKeys` | backend/app/main.py:50 | `result` has exactly the kept names as keys, each mapped to its positive solver value |
| `Interpret.ResultTotal` | backend/app/main.py:51 | definition, no contract: the sum over the keys of `result` of one column times the returned value; its properties are in `DropZeros` and `ResultMeetsRequirements` |
| `Interpret.TotalCost` | backend/app/main.py:51 | definition, no contract: `total_cost`; its properties are in `TotalCostIsDistinctCost`, `TotalCostIsObjective` and `TotalCostNonNegative` |
| `Interpret.Optimize` | backend/app/main.py:29-53 | the endpoint fails exactly when some selected name is unknown |
| `Interpret.OptimizeDiet` | backend/app/main.py:29-53 | building on the problem object and reading back gives the outcome `Optimize` describes |
| `Interpret.TermsOfPositive` | backend/app/main.py:50-51 | the list over the kept names is the positive part of the list over all names |
| `Interpret.DropZeros` | backend/app/main.py:50-51 | summing over the kept names at `result` equals summing over all names at the solver's values, when those are non-negative |
| `Interpret.TotalCostIsDistinctCost` | backend/app/main.py:51 | at non-negative values `total_cost` is the cost counting each distinct selected name once |
| `Interpret.TotalCostIsObjective` | backend/app/main.py:51 | without duplicates, and at non-negative values, `total_cost` equals the objective's value |
| `Interpret.TotalCostNonNegative` | backend/app/main.py:51 | with a non-negative catalog `total_cost` is never negative |
| `Interpret.ResultMeetsRequirements` | backend/app/main.py:39-50 | without duplicates, at a feasible point the returned quantities meet every nutrient floor |
| `Interpret.EmptySelectionResult` | backend/app/main.py:50-53 | an empty selection returns an empty `optimal_selection` and `total_cost` 0 |
| `Interpret.DuplicateSelectionQuirk` | backend/app/main.py:36-51 | one samosa selected twice at value 1: the objective is 20 while `total_cost` is 10 |
| `Interpret.DuplicateSelectionMissesFloor` | backend/app/main.py:39-51 | one samosa selected twice at value 14 is feasible, yet the returned quantities carry 420 calcium against a floor of 800 |
| `Selector.FoodItems` | frontend/src/components/FoodItemSelector.jsx:8 | definition, no contract: the three checkbox names in display order; its properties are in `Integration.FoodItemsAreCatalog` |
| `Selector.InitialSelection` | frontend/src/components/FoodItemSelector.jsx:5 | definition, no contract: the empty initial selection |
| `Selector.SelectionAfter` | frontend/src/components/FoodItemSelector.jsx:5-13 | definition, no contract: the selection after a sequence of checkbox changes; its properties are in `SelectionAfterNoDuplicates`, `SelectedIffOddClicks` and `SelectionAfterWithinFoodItems` |
| `Selector.Without` | frontend/src/components/FoodItemSelector.jsx:12 | `filter` keeps exactly the elements other than the item |
| `Selector.Toggle` | frontend/src/components/FoodItemSelector.jsx:10-14 | the toggled item flips membership; every other name keeps its membership |
| `Selector.WithoutCount` | frontend/src/components/FoodItemSelector.jsx:12 | `filter` removes every occurrence of the item and keeps every occurrence of the others |
| `Selector.TogglePreservesNoDuplicates` | frontend/src/components/FoodItemSelector.jsx:12 | toggling never creates a duplicate |
| `Selector.ToggleKeepsOthersInOrder` | frontend/src/components/FoodItemSelector.jsx:12 | toggling leaves the other names in their order |
| `Selector.ToggleTwice` | frontend/src/components/FoodItemSelector.jsx:12 | toggling an absent item twice restores the list; toggling a present one twice moves it to the end |
| `Selector.SelectionAfterNoDuplicates` | frontend/src/components/FoodItemSelector.jsx:5-13 | starting from `[]`, no sequence of changes yields a duplicate |
| `Selector.SelectedIffOddClicks` | frontend/src/components/FoodItemSelector.jsx:5-13 | a name is selected iff its checkbox changed an odd number of times |
| `Selector.SelectionAfterWithinFoodItems` | frontend/src/components/FoodItemSelector.jsx:31-36 | with the checkboxes of `foodItems`, only those names can be selected |
| `Integration.FoodItemsAreCatalog` | frontend/src/components/FoodItemSelector.jsx:8 | the checkbox names are exactly the catalog's names, without repeats |
| `Integration.UiSelectionBuildsCleanly` | frontend/src/components/FoodItemSelector.jsx:16-20 | a selection the frontend sends always builds and gets a response; each item's objective coefficient is its cost; at non-negative values `total_cost` equals the objective |

## Left out

- The solve (`problem.solve()`, backend/app/main.py:47) is a call into PuLP and its CBC
  solver. Its output is the parameter `x`. Optimality of `x` is not modelled: lemmas
  assume only what they state of `x`, such as feasibility or non-negativity.
- `varValue` being `None` for a variable the solver did not assign is not modelled. The
  backend's `None > 0` would raise. The model requires `x` to give every selected name
  a value.
- The FastAPI application, CORS middleware, routing, request parsing (`FoodSelection`,
  a list of any JSON values, modelled as strings) and the mapping of exceptions to HTTP
  status codes are left out.
- Floating point is left out. Catalog values and solver values are reals, and sums are
  exact. The left-to-right order of Python's `sum` is kept in `TermsValue`.
- The frontend's `axios.post`, the rendering of the checkboxes and of the result
  (FoodItemSelector.jsx:16-26 and 28-50) and `App.jsx` are I/O and layout. They are
  left out. Only the state updates are modelled, and the request body is the
  selection list.
- The checkbox state of the JSX inputs is not modelled (they are uncontrolled). The
  model follows the list that `setSelectedItems` keeps.
- `Interpret.Optimize`: its own contract states only when it fails. What the success
  response contains is stated by `ResultKeys`, `TotalCostIsDistinctCost`,
  `TotalCostIsObjective`, `TotalCostNonNegative` and `ResultMeetsRequirements`.
- The variants that other snapshots of the service carry are not part of this model:
  a per-item cap, integer variables, loading the catalog from CSV, and a menu endpoint.
