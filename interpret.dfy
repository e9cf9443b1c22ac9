/** What `optimize_diet` reads back after the solve: `result`, the selected names whose
    value is strictly positive, and `total_cost`, the cost summed over the keys of
    `result`. The solver's values are the parameter `x`. */
module Interpret {
  import opened Wrappers
  import opened Seqs
  import opened Catalog
  import opened Lp
  import opened DietModel

  /** The names of `names`, in order, whose value is strictly positive. */
  function PositiveOnly(names: seq<string>, x: map<string, real>): (r: seq<string>)
    requires Covers(x, names)
    ensures forall v :: v in r <==> v in names && x[v] > 0.0
  {
    if names == [] then []
    else
      var p, l := names[..|names| - 1], names[|names| - 1];
      assert names == p + [l];
      var r := PositiveOnly(p, x);
      if x[l] > 0.0 then r + [l] else r
  }

  /** The filter on a non-empty sequence: the filter of its prefix, then its last name if
      that is positive. */
  lemma PositiveOnlySnoc(names: seq<string>, x: map<string, real>)
    requires Covers(x, names) && names != []
    ensures Covers(x, names[..|names| - 1]) && names[|names| - 1] in x
    ensures PositiveOnly(names, x) ==
      if x[names[|names| - 1]] > 0.0 then PositiveOnly(names[..|names| - 1], x) + [names[|names| - 1]]
      else PositiveOnly(names[..|names| - 1], x)
  {
    assert names == names[..|names| - 1] + [names[|names| - 1]];
  }

  /** Filtering a sequence without duplicates keeps it free of them. */
  lemma {:induction false} PositiveOnlyDistinct(names: seq<string>, x: map<string, real>)
    requires Covers(x, names) && NoDuplicates(names)
    ensures NoDuplicates(PositiveOnly(names, x))
  {
    if names != [] {
      var p, l := names[..|names| - 1], names[|names| - 1];
      assert names == p + [l];
      assert NoDuplicates(p);
      PositiveOnlyDistinct(p, x);
    }
  }

  /** The keys of `result` in the order the dict comprehension inserts them: the first
      occurrence of each selected name, kept when its value is strictly positive. */
  function KeptNames(sel: seq<string>, x: map<string, real>): (r: seq<string>)
    requires Covers(x, sel)
    ensures forall v :: v in r <==> v in sel && x[v] > 0.0
    ensures NoDuplicates(r)
  {
    DedupDistinct(sel);
    PositiveOnlyDistinct(Dedup(sel), x);
    PositiveOnly(Dedup(sel), x)
  }

  /** `result = {item: food_vars[item].varValue for item in sel if varValue > 0}`. */
  function OptimalSelection(sel: seq<string>, x: map<string, real>): (r: map<string, real>)
    requires Covers(x, sel)
    ensures forall i :: i in r <==> i in sel && x[i] > 0.0
    ensures forall i :: i in r ==> r[i] == x[i]
  {
    map i | i in sel && x[i] > 0.0 :: x[i]
  }

  /** `sum([cat[item][column] * result[item] for item in result])`, generalised from the
      cost column to any column. */
  function ResultTotal(cat: Table, sel: seq<string>, x: map<string, real>, col: Column): real
    requires Known(cat, sel) && Covers(x, sel)
  {
    var kept := KeptNames(sel, x);
    TermsValue(Terms(cat, kept, col), OptimalSelection(sel, x))
  }

  /** `total_cost`. */
  function TotalCost(cat: Table, sel: seq<string>, x: map<string, real>): real
    requires Known(cat, sel) && Covers(x, sel)
  {
    ResultTotal(cat, sel, x, CostColumn)
  }

  /** The body of the response. */
  datatype Response = Response(optimalSelection: map<string, real>, totalCost: real)

  /** The endpoint's outcome: the `KeyError` raised while building the problem, or the
      response read back from the solver's values `x`. */
  function Optimize(cat: Table, sel: seq<string>, x: map<string, real>): (r: Result<Response, BuildError>)
    requires Known(cat, sel) ==> Covers(x, sel)
    ensures r.Failure? <==> exists i :: i in sel && i !in cat
  {
    BuildFailsOnUnknown(cat, sel);
    match Build(cat, sel)
    case Failure(e) => Failure(e)
    case Success(_) => Success(Response(OptimalSelection(sel, x), TotalCost(cat, sel, x)))
  }

  /** `optimize_diet` on the problem object: build it, take the solver's values, read
      back the response. */
  method OptimizeDiet(cat: Table, sel: seq<string>, x: map<string, real>) returns (r: Result<Response, BuildError>)
    requires Known(cat, sel) ==> Covers(x, sel)
    ensures r == Optimize(cat, sel, x)
  {
    var problem := BuildProblem(cat, sel);
    if problem.Failure? {
      return Failure(problem.error);
    }
    var result := OptimalSelection(sel, x);
    var totalCost := TotalCost(cat, sel, x);
    return Success(Response(result, totalCost));
  }

  /** The keys of `result` are the kept names: selected, with a strictly positive value,
      which is the value stored. */
  lemma ResultKeys(sel: seq<string>, x: map<string, real>)
    requires Covers(x, sel)
    ensures forall i :: i in OptimalSelection(sel, x) <==> i in KeptNames(sel, x)
    ensures forall i :: i in OptimalSelection(sel, x) ==> OptimalSelection(sel, x)[i] == x[i] > 0.0
  {
  }

  /** The list over the positive names is the positive part of the list. */
  lemma {:induction false} TermsOfPositive(cat: Table, s: seq<string>, col: Column, x: map<string, real>)
    requires Known(cat, s) && Covers(x, s)
    ensures Known(cat, PositiveOnly(s, x))
    ensures forall t :: t in Terms(cat, s, col) ==> t.name in x
    ensures Terms(cat, PositiveOnly(s, x), col) == PositiveTerms(Terms(cat, s, col), x)
  {
    if s != [] {
      var p, l := s[..|s| - 1], s[|s| - 1];
      PositiveOnlySnoc(s, x);
      assert s == p + [l];
      TermsOfPositive(cat, p, col, x);
      var ts := Terms(cat, s, col);
      assert ts[..|ts| - 1] == Terms(cat, p, col);
      if x[l] > 0.0 {
        var q := PositiveOnly(p, x) + [l];
        var tq := Terms(cat, q, col);
        assert q[..|q| - 1] == PositiveOnly(p, x);
        assert tq[..|tq| - 1] == Terms(cat, PositiveOnly(p, x), col);
      }
    }
  }

  /** Names whose value is zero add nothing: summing the list over `s` at `x` equals
      summing over its positive names at any `y` that agrees with `x` on them. */
  lemma DropZeros(cat: Table, s: seq<string>, col: Column, x: map<string, real>, y: map<string, real>)
    requires Known(cat, s) && Covers(x, s)
    requires forall i :: i in s ==> x[i] >= 0.0
    requires forall i :: i in s && x[i] > 0.0 ==> i in y && y[i] == x[i]
    ensures Known(cat, PositiveOnly(s, x))
    ensures TermsValue(Terms(cat, s, col), x) == TermsValue(Terms(cat, PositiveOnly(s, x), col), y)
  {
    TermsOfPositive(cat, s, col, x);
    TermsValuePositive(Terms(cat, s, col), x, y);
  }

  /** `total_cost` is the cost of the point counting each distinct name once. */
  lemma TotalCostIsDistinctCost(cat: Table, sel: seq<string>, x: map<string, real>)
    requires Known(cat, sel) && Covers(x, sel)
    requires forall i :: i in sel ==> x[i] >= 0.0
    ensures Known(cat, Dedup(sel)) && Covers(x, Dedup(sel))
    ensures TotalCost(cat, sel, x) == CostTotal(cat, Dedup(sel), x)
  {
    DedupDistinct(sel);
    DropZeros(cat, Dedup(sel), CostColumn, x, OptimalSelection(sel, x));
  }

  /** Without duplicates in the selection, `total_cost` is the objective's value at the
      solver's point. */
  lemma TotalCostIsObjective(cat: Table, sel: seq<string>, x: map<string, real>)
    requires Known(cat, sel) && Covers(x, sel) && NoDuplicates(sel)
    requires forall i :: i in sel ==> x[i] >= 0.0
    ensures Build(cat, sel).Success? && Covers(x, Build(cat, sel).value.names)
    ensures TotalCost(cat, sel, x) == ObjectiveValue(Build(cat, sel).value, x)
  {
    DedupOfDistinct(sel);
    TotalCostIsDistinctCost(cat, sel, x);
    ObjectiveIsCostList(cat, sel, x);
  }

  /** With non-negative catalog values `total_cost` is never negative. */
  lemma TotalCostNonNegative(cat: Table, sel: seq<string>, x: map<string, real>)
    requires NonNegative(cat) && Known(cat, sel) && Covers(x, sel)
    ensures TotalCost(cat, sel, x) >= 0.0
  {
    var kept := KeptNames(sel, x);
    var ts := Terms(cat, kept, CostColumn);
    var y := OptimalSelection(sel, x);
    forall k | 0 <= k < |ts|
      ensures ts[k].coef >= 0.0 && y[ts[k].name] >= 0.0
    {
      TermsCoefAt(cat, kept, CostColumn, k);
    }
    TermsValueNonNegative(ts, y);
  }

  /** Every term's coefficient is the catalog value of its name. */
  lemma {:induction false} TermsCoefAt(cat: Table, items: seq<string>, col: Column, k: int)
    requires Known(cat, items) && 0 <= k < |items|
    ensures Terms(cat, items, col)[k].coef == Attribute(cat[items[k]], col)
  {
    var p := items[..|items| - 1];
    assert items == p + [items[|items| - 1]];
    if k < |items| - 1 {
      assert Known(cat, p);
      TermsCoefAt(cat, p, col, k);
    }
  }

  /** Without duplicates in the selection, at a feasible point the returned selection
      itself meets every nutrient floor. */
  lemma ResultMeetsRequirements(cat: Table, sel: seq<string>, x: map<string, real>)
    requires Known(cat, sel) && Covers(x, sel) && NoDuplicates(sel)
    requires Feasible(Build(cat, sel).value, x)
    ensures forall k :: 0 <= k < |Requirements| ==>
      ResultTotal(cat, sel, x, NutrientColumn(Requirements[k].nutrient)) >= Requirements[k].minimum
  {
    FeasibleIffRequirementsMet(cat, sel, x);
    DedupOfDistinct(sel);
    forall k | 0 <= k < |Requirements|
      ensures ResultTotal(cat, sel, x, NutrientColumn(Requirements[k].nutrient))
        == NutrientTotal(cat, sel, Requirements[k].nutrient, x)
    {
      DropZeros(cat, sel, NutrientColumn(Requirements[k].nutrient), x, OptimalSelection(sel, x));
    }
  }

  /** An empty selection builds, and the response is an empty selection at cost zero. */
  lemma EmptySelectionResult(cat: Table, x: map<string, real>)
    ensures Optimize(cat, [], x) == Success(Response(map[], 0.0))
  {
    assert OptimalSelection([], x) == map[];
  }

  /** A name selected twice has its cost counted twice in the objective but once in
      `total_cost`: at one samosa the objective is 20 and `total_cost` is 10. */
  lemma DuplicateSelectionQuirk()
    ensures var sel, x := ["Aloo Samosa", "Aloo Samosa"], map["Aloo Samosa" := 1.0];
      && Build(FoodData, sel).Success?
      && Covers(x, Build(FoodData, sel).value.names)
      && ObjectiveValue(Build(FoodData, sel).value, x) == 20.0
      && TotalCost(FoodData, sel, x) == 10.0
  {
    var sel, x := ["Aloo Samosa", "Aloo Samosa"], map["Aloo Samosa" := 1.0];
    assert Known(FoodData, sel);
    BuildSuccess(FoodData, sel);
    assert Dedup(sel) == ["Aloo Samosa"] by {
      assert sel[..1] == ["Aloo Samosa"];
      assert Dedup(sel[..1]) == ["Aloo Samosa"] by { assert sel[..1][..0] == []; }
    }
    ObjectiveIsCostList(FoodData, sel, x);
    TotalCostIsDistinctCost(FoodData, sel, x);
  }

  /** The list over a name selected once is worth its term, and a name selected twice
      is worth its term twice. */
  lemma SingleAndDoubledTotal(cat: Table, i: string, col: Column, x: map<string, real>)
    requires i in cat && i in x
    ensures Known(cat, [i]) && Covers(x, [i]) && Known(cat, [i, i]) && Covers(x, [i, i])
    ensures TermsValue(Terms(cat, [i], col), x) == TermValue(Term(Attribute(cat[i], col), i), x)
    ensures TermsValue(Terms(cat, [i, i], col), x) == 2.0 * TermValue(Term(Attribute(cat[i], col), i), x)
  {
    var s, t := [i, i], Term(Attribute(cat[i], col), i);
    assert s[..1] == [i] && s[..1][..0] == [];
    assert Terms(cat, [i], col) == [t];
    assert Terms(cat, s, col) == [t, t];
    var ts := [t, t];
    assert ts[..1] == [t] && ts[..1][..0] == [];
    assert TermsValue(ts, x) == TermsValue([t], x) + TermValue(t, x);
  }

  /** With a name selected twice the backend's rows count it twice, so a point can be
      feasible while the returned selection misses a floor: at 14 samosas out of a double
      selection every row is met, yet the returned samosas carry 420 of the 800 calcium. */
  lemma DuplicateSelectionMissesFloor()
    ensures var sel, x := ["Aloo Samosa", "Aloo Samosa"], map["Aloo Samosa" := 14.0];
      && Build(FoodData, sel).Success?
      && Feasible(Build(FoodData, sel).value, x)
      && ResultTotal(FoodData, sel, x, NutrientColumn(Calcium)) == 420.0
      && Requirements[5] == Requirement(Calcium, 800.0)
  {
    DoubledSamosaFeasible();
    DoubledSamosaResult();
  }

  /** Every row of the doubled selection is met at 14 samosas. */
  lemma DoubledSamosaFeasible()
    ensures var sel, x := ["Aloo Samosa", "Aloo Samosa"], map["Aloo Samosa" := 14.0];
      Build(FoodData, sel).Success? && Feasible(Build(FoodData, sel).value, x)
  {
    var name := "Aloo Samosa";
    var sel, x := [name, name], map[name := 14.0];
    assert Known(FoodData, sel);
    forall k | 0 <= k < |Requirements|
      ensures NutrientTotal(FoodData, sel, Requirements[k].nutrient, x) >= Requirements[k].minimum
    {
      DoubledSamosaTotal(Requirements[k].nutrient);
    }
    FeasibleIffRequirementsMet(FoodData, sel, x);
  }

  /** At 14 samosas the doubled selection carries 28 samosas' worth of every nutrient. */
  lemma DoubledSamosaTotal(n: Nutrient)
    ensures var sel, x := ["Aloo Samosa", "Aloo Samosa"], map["Aloo Samosa" := 14.0];
      && Known(FoodData, sel) && Covers(x, sel)
      && NutrientTotal(FoodData, sel, n, x) == 28.0 * Attribute(Food(10.0, 4.0, 11.0, 32.0, 100.0, 10.0, 30.0), NutrientColumn(n))
  {
    var name := "Aloo Samosa";
    assert FoodData[name] == Food(10.0, 4.0, 11.0, 32.0, 100.0, 10.0, 30.0);
    SingleAndDoubledTotal(FoodData, name, NutrientColumn(n), map[name := 14.0]);
  }

  /** The returned 14 samosas carry 420 calcium. */
  lemma DoubledSamosaResult()
    ensures var sel, x := ["Aloo Samosa", "Aloo Samosa"], map["Aloo Samosa" := 14.0];
      ResultTotal(FoodData, sel, x, NutrientColumn(Calcium)) == 420.0
  {
    var name := "Aloo Samosa";
    var sel, x := [name, name], map[name := 14.0];
    var one := [name];
    assert FoodData[name].calcium == 30.0;
    assert Dedup(sel) == one by {
      assert sel[..1] == one;
      assert Dedup(one) == one by { assert one[..0] == []; }
    }
    assert KeptNames(sel, x) == one by {
      assert one[..0] == [];
      assert PositiveOnly(one, x) == one;
    }
    assert OptimalSelection(sel, x) == x;
    SingleAndDoubledTotal(FoodData, name, NutrientColumn(Calcium), x);
  }
}
