/** The linear program that `optimize_diet` builds from a selection of item names:
    one non-negative continuous variable per distinct name, the cost objective and six
    `>=` nutrient rows. Every list comprehension handed to `lpSum` walks the selection
    with its duplicates, so a name selected k times weighs k times its per-unit value.
    The construction is stated for any catalog `cat`; the endpoint uses `FoodData`. */
module DietModel {
  import opened Wrappers
  import opened Seqs
  import opened Catalog
  import opened Lp

  datatype Requirement = Requirement(nutrient: Nutrient, minimum: real)

  /** The six nutrient floors, in the order the constraints are added. */
  const Requirements: seq<Requirement> := [
    Requirement(Protein, 55.0),
    Requirement(Fat, 46.0),
    Requirement(Carb, 180.0),
    Requirement(Phos, 700.0),
    Requirement(VitC, 70.0),
    Requirement(Calcium, 800.0)
  ]

  /** The `KeyError` raised by `cat[item]` for a name outside the catalog. */
  datatype BuildError = UnknownItem(name: string)

  /** The variable PuLP creates for one item: `LpVariable(item, lowBound=0)`. */
  function ItemVar(i: string): LpVariable
  {
    LpVariable(i, Some(0.0), None, Continuous)
  }

  /** `food_vars`: one variable per distinct selected name (the dict keeps one key per name). */
  function FoodVars(sel: seq<string>): map<string, LpVariable>
  {
    map i | i in sel :: ItemVar(i)
  }

  /** The first selected name, in selection order, that the catalog lacks: the lookup
      that raises when the objective's list is evaluated. */
  function FirstUnknown(cat: Table, sel: seq<string>): (r: Option<string>)
    ensures r.None? <==> Known(cat, sel)
    ensures r.Some? ==> exists k :: 0 <= k < |sel| && sel[k] == r.value && r.value !in cat && Known(cat, sel[..k])
  {
    if sel == [] then None
    else if sel[0] !in cat then
      assert Known(cat, sel[..0]);
      Some(sel[0])
    else
      var r := FirstUnknown(cat, sel[1..]);
      if r.Some? then
        var k :| 0 <= k < |sel[1..]| && sel[1..][k] == r.value && r.value !in cat && Known(cat, sel[1..][..k]);
        assert sel[..k + 1] == [sel[0]] + sel[1..][..k];
        r
      else r
  }

  /** `[cat[item][column] * food_vars[item] for item in items]`. */
  function Terms(cat: Table, items: seq<string>, col: Column): (ts: seq<Term>)
    requires Known(cat, items)
    ensures |ts| == |items|
    ensures forall k :: 0 <= k < |ts| ==> ts[k].name == items[k]
  {
    if items == [] then []
    else
      var l := items[|items| - 1];
      Terms(cat, items[..|items| - 1], col) + [Term(Attribute(cat[l], col), l)]
  }

  /** `lpSum` of that list. */
  function Row(cat: Table, sel: seq<string>, col: Column): LinExpr
    requires Known(cat, sel)
  {
    LpSum(Terms(cat, sel, col))
  }

  /** The six `>=` rows, one per requirement, in the order they are added. */
  function Constraints(cat: Table, sel: seq<string>): seq<Constraint>
    requires Known(cat, sel)
  {
    seq(|Requirements|, k requires 0 <= k < |Requirements| =>
      AtLeast(Row(cat, sel, NutrientColumn(Requirements[k].nutrient)), Requirements[k].minimum))
  }

  /** The problem `optimize_diet` hands to the solver, or the error raised before it. */
  function Build(cat: Table, sel: seq<string>): Result<LpInstance, BuildError>
  {
    match FirstUnknown(cat, sel)
    case Some(name) => Failure(UnknownItem(name))
    case None => Success(LpInstance(Minimize, Dedup(sel), FoodVars(sel), Row(cat, sel, CostColumn), Constraints(cat, sel)))
  }

  /** The same construction on PuLP's problem object: the objective first, then the six
      constraints, each added with `+=`. */
  method BuildProblem(cat: Table, sel: seq<string>) returns (r: Result<LpProblem, BuildError>)
    ensures Build(cat, sel).Failure? ==> r == Failure(Build(cat, sel).error)
    ensures Build(cat, sel).Success? ==> r.Success? && fresh(r.value)
    ensures Build(cat, sel).Success? ==>
      && r.value.name == "DietOptimization" && r.value.sense == Build(cat, sel).value.sense
      && r.value.objective == Some(Build(cat, sel).value.objective)
      && r.value.constraints == Build(cat, sel).value.constraints
  {
    var problem := new LpProblem("DietOptimization", Minimize);
    var unknown := FirstUnknown(cat, sel);
    if unknown.Some? {
      return Failure(UnknownItem(unknown.value));
    }
    BuildSuccess(cat, sel);
    problem.SetObjective(Row(cat, sel, CostColumn));
    AddRequirementRows(problem, cat, sel);
    return Success(problem);
  }

  /** The six `problem += lpSum(...) >= floor` statements. */
  method AddRequirementRows(problem: LpProblem, cat: Table, sel: seq<string>)
    requires Known(cat, sel)
    modifies problem
    ensures problem.constraints == old(problem.constraints) + Constraints(cat, sel)
    ensures problem.objective == old(problem.objective)
  {
    problem.AddConstraint(AtLeast(Row(cat, sel, NutrientColumn(Protein)), 55.0));
    problem.AddConstraint(AtLeast(Row(cat, sel, NutrientColumn(Fat)), 46.0));
    problem.AddConstraint(AtLeast(Row(cat, sel, NutrientColumn(Carb)), 180.0));
    problem.AddConstraint(AtLeast(Row(cat, sel, NutrientColumn(Phos)), 700.0));
    problem.AddConstraint(AtLeast(Row(cat, sel, NutrientColumn(VitC)), 70.0));
    problem.AddConstraint(AtLeast(Row(cat, sel, NutrientColumn(Calcium)), 800.0));
    ConstraintsSpelledOut(cat, sel);
  }

  /** The six rows of `Constraints`, written out. */
  lemma ConstraintsSpelledOut(cat: Table, sel: seq<string>)
    requires Known(cat, sel)
    ensures Constraints(cat, sel) == [
      AtLeast(Row(cat, sel, NutrientColumn(Protein)), 55.0),
      AtLeast(Row(cat, sel, NutrientColumn(Fat)), 46.0),
      AtLeast(Row(cat, sel, NutrientColumn(Carb)), 180.0),
      AtLeast(Row(cat, sel, NutrientColumn(Phos)), 700.0),
      AtLeast(Row(cat, sel, NutrientColumn(VitC)), 70.0),
      AtLeast(Row(cat, sel, NutrientColumn(Calcium)), 800.0)]
  {
  }

  /** A successful construction is exactly the instance spelled out in `Build`. */
  lemma BuildSuccess(cat: Table, sel: seq<string>)
    requires Known(cat, sel)
    ensures Build(cat, sel).Success?
    ensures Build(cat, sel).value.sense == Minimize
    ensures Build(cat, sel).value.names == Dedup(sel) && Build(cat, sel).value.vars == FoodVars(sel)
    ensures Build(cat, sel).value.objective == Row(cat, sel, CostColumn)
    ensures Build(cat, sel).value.constraints == Constraints(cat, sel)
  {
  }

  /** Construction fails exactly when some selected name is not in the catalog, and the
      error names the first such name. */
  lemma BuildFailsOnUnknown(cat: Table, sel: seq<string>)
    ensures Build(cat, sel).Failure? <==> exists i :: i in sel && i !in cat
    ensures Build(cat, sel).Failure? ==>
      exists k :: 0 <= k < |sel| && sel[k] == Build(cat, sel).error.name && sel[k] !in cat && Known(cat, sel[..k])
  {
  }

  /** `n` copies of `a` added up: the multiplicity `n` times the value `a`. The
      coefficient lemmas state multiplicities with it rather than with `*`, which keeps
      their proofs linear; `TimesIsProduct` is the bridge to the product. */
  function Times(n: nat, a: real): real
  {
    if n == 0 then 0.0 else Times(n - 1, a) + a
  }

  /** `Times` is the product of the multiplicity and the value. */
  lemma {:induction false} TimesIsProduct(n: nat, a: real)
    ensures Times(n, a) == (n as real) * a
  {
    if n > 0 {
      TimesIsProduct(n - 1, a);
      assert ((n - 1) as real) * a + a == (n as real) * a;
    }
  }

  /** The list for a column puts the name's per-unit value on it once per occurrence. */
  lemma {:induction false} TermsCoef(cat: Table, sel: seq<string>, col: Column, i: string)
    requires Known(cat, sel)
    ensures i in cat ==> CoefOf(Terms(cat, sel, col), i) == Times(Count(sel, i), Attribute(cat[i], col))
    ensures i !in sel ==> CoefOf(Terms(cat, sel, col), i) == 0.0
  {
    if sel != [] {
      var p, l := sel[..|sel| - 1], sel[|sel| - 1];
      CoefOfSnocItem(cat, sel, col, i);
      TermsCoef(cat, p, col, i);
    }
  }

  /** The coefficient after appending a name: the prefix's, plus the name's value when it
      is `i`; the count of `i` grows with it. */
  lemma CoefOfSnocItem(cat: Table, s: seq<string>, col: Column, i: string)
    requires Known(cat, s) && s != []
    ensures Known(cat, s[..|s| - 1])
    ensures i !in s ==> i !in s[..|s| - 1] && s[|s| - 1] != i
    ensures CoefOf(Terms(cat, s, col), i)
      == CoefOf(Terms(cat, s[..|s| - 1], col), i) + (if s[|s| - 1] == i then Attribute(cat[i], col) else 0.0)
    ensures Count(s, i) == Count(s[..|s| - 1], i) + (if s[|s| - 1] == i then 1 else 0)
  {
    var p, l := s[..|s| - 1], s[|s| - 1];
    assert s == p + [l];
    var ts := Terms(cat, s, col);
    assert ts[..|ts| - 1] == Terms(cat, p, col);
  }

  /** The coefficient of `i` in the `lpSum` of a column is its multiplicity in the
      selection times its per-unit value (`Times`, which `TimesIsProduct` equates with
      the product); names outside the selection have none. */
  lemma RowCoef(cat: Table, sel: seq<string>, col: Column, i: string)
    requires Known(cat, sel)
    ensures i in cat ==> Coef(Row(cat, sel, col), i) == Times(Count(sel, i), Attribute(cat[i], col))
    ensures i !in sel ==> Coef(Row(cat, sel, col), i) == 0.0
  {
    LpSumCoef(Terms(cat, sel, col), i);
    TermsCoef(cat, sel, col, i);
  }

  /** The variables are the distinct selected names, each non-negative, unbounded above
      and continuous. */
  lemma BuildVariables(cat: Table, sel: seq<string>)
    requires Known(cat, sel)
    ensures Build(cat, sel).Success?
    ensures forall v :: v in Build(cat, sel).value.names <==> v in sel
    ensures NoDuplicates(Build(cat, sel).value.names)
    ensures forall v :: v in Build(cat, sel).value.vars <==> v in sel
    ensures forall v :: v in Build(cat, sel).value.vars ==> Build(cat, sel).value.vars[v] == ItemVar(v)
  {
    BuildSuccess(cat, sel);
    DedupDistinct(sel);
  }

  /** The objective charges each selected name its cost once per occurrence: by
      `TimesIsProduct`, its multiplicity times its cost. */
  lemma BuildObjective(cat: Table, sel: seq<string>, i: string)
    requires Known(cat, sel)
    ensures Build(cat, sel).Success?
    ensures i in cat ==> Coef(Build(cat, sel).value.objective, i) == Times(Count(sel, i), cat[i].cost)
    ensures i !in sel ==> Coef(Build(cat, sel).value.objective, i) == 0.0
  {
    BuildSuccess(cat, sel);
    RowCoef(cat, sel, CostColumn, i);
  }

  /** Constraint k is the k-th requirement: its floor on the right, and on the left each
      selected name's amount of that nutrient once per occurrence (by `TimesIsProduct`,
      multiplicity times amount). */
  lemma BuildConstraints(cat: Table, sel: seq<string>)
    requires Known(cat, sel)
    ensures Build(cat, sel).Success?
    ensures |Build(cat, sel).value.constraints| == |Requirements|
    ensures forall k :: 0 <= k < |Requirements| ==>
      Build(cat, sel).value.constraints[k].rhs == Requirements[k].minimum
    ensures forall k, i :: 0 <= k < |Requirements| && i in cat ==>
      Coef(Build(cat, sel).value.constraints[k].lhs, i)
        == Times(Count(sel, i), Attribute(cat[i], NutrientColumn(Requirements[k].nutrient)))
    ensures forall k, i :: 0 <= k < |Requirements| && i !in sel ==>
      Coef(Build(cat, sel).value.constraints[k].lhs, i) == 0.0
  {
    BuildSuccess(cat, sel);
    var cs := Build(cat, sel).value.constraints;
    forall k, i | 0 <= k < |Requirements|
      ensures i in cat ==> Coef(cs[k].lhs, i) == Times(Count(sel, i), Attribute(cat[i], NutrientColumn(Requirements[k].nutrient)))
      ensures i !in sel ==> Coef(cs[k].lhs, i) == 0.0
    {
      RowCoef(cat, sel, NutrientColumn(Requirements[k].nutrient), i);
    }
  }

  /** The amount of nutrient `n` the list `[cat[item][n] * x[item] for item in sel]` adds up to. */
  function NutrientTotal(cat: Table, sel: seq<string>, n: Nutrient, x: map<string, real>): real
    requires Known(cat, sel) && Covers(x, sel)
  {
    TermsValue(Terms(cat, sel, NutrientColumn(n)), x)
  }

  /** The cost the objective's list `[cat[item]['cost'] * x[item] for item in sel]` adds up to. */
  function CostTotal(cat: Table, sel: seq<string>, x: map<string, real>): real
    requires Known(cat, sel) && Covers(x, sel)
  {
    TermsValue(Terms(cat, sel, CostColumn), x)
  }

  /** The value of a row at `x` is the value of its list. */
  lemma RowValue(cat: Table, sel: seq<string>, col: Column, x: map<string, real>)
    requires Known(cat, sel) && Covers(x, sel)
    ensures Covers(x, Dedup(sel))
    ensures Eval(Row(cat, sel, col), Dedup(sel), x) == TermsValue(Terms(cat, sel, col), x)
  {
    DedupDistinct(sel);
    LpSumValue(Terms(cat, sel, col), Dedup(sel), x);
  }

  /** A point is feasible exactly when it gives every selected name a non-negative value
      and every nutrient total reaches its floor. */
  lemma FeasibleIffRequirementsMet(cat: Table, sel: seq<string>, x: map<string, real>)
    requires Known(cat, sel) && Covers(x, sel)
    ensures Build(cat, sel).Success?
    ensures Feasible(Build(cat, sel).value, x) <==>
      && (forall i :: i in sel ==> x[i] >= 0.0)
      && forall k :: 0 <= k < |Requirements| ==>
           NutrientTotal(cat, sel, Requirements[k].nutrient, x) >= Requirements[k].minimum
  {
    BuildSuccess(cat, sel);
    var inst := Build(cat, sel).value;
    DedupDistinct(sel);
    forall k | 0 <= k < |Requirements|
      ensures Satisfied(inst.constraints[k], inst.names, x)
        <==> NutrientTotal(cat, sel, Requirements[k].nutrient, x) >= Requirements[k].minimum
    {
      RowValue(cat, sel, NutrientColumn(Requirements[k].nutrient), x);
    }
  }

  /** The objective at `x` is what the objective's list adds up to. */
  lemma ObjectiveIsCostList(cat: Table, sel: seq<string>, x: map<string, real>)
    requires Known(cat, sel) && Covers(x, sel)
    ensures Build(cat, sel).Success? && Covers(x, Build(cat, sel).value.names)
    ensures ObjectiveValue(Build(cat, sel).value, x) == CostTotal(cat, sel, x)
  {
    BuildSuccess(cat, sel);
    RowValue(cat, sel, CostColumn, x);
  }

  /** With nothing selected every row is empty, so the protein floor cannot be met. */
  lemma EmptySelectionInfeasible(cat: Table)
    ensures Build(cat, []).Success?
    ensures forall x :: !Feasible(Build(cat, []).value, x)
  {
    var inst := Build(cat, []).value;
    assert inst.constraints[0] == AtLeast(map[], 55.0);
    forall x | Covers(x, inst.names)
      ensures !Satisfied(inst.constraints[0], inst.names, x)
    {
    }
  }
}
