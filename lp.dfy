/** The part of PuLP's vocabulary that the diet model uses: continuous variables with
    optional bounds, affine expressions (a coefficient per variable),
    `lpSum`, `>=` constraints and the `LpProblem` object that `+=` extends.
    The solver itself is not modelled: its output is a map from variable name to value. */
module Lp {
  import opened Wrappers
  import opened Seqs

  /** `cat='Continuous'`, the only variable category the backend asks for. */
  datatype Category = Continuous

  /** `LpMinimize`, the only sense the backend asks for. */
  datatype Sense = Minimize

  datatype LpVariable = LpVariable(name: string, lowBound: Option<real>, upBound: Option<real>, cat: Category)

  /** An affine expression without a constant: the coefficient of each variable it mentions. */
  type LinExpr = map<string, real>

  /** `coef * variable`, one element of the list handed to `lpSum`. */
  datatype Term = Term(coef: real, name: string)

  /** `lhs >= rhs`. */
  datatype Constraint = AtLeast(lhs: LinExpr, rhs: real)

  /** A problem as plain data: the variables in declaration order and by name,
      the objective and the constraints in the order they were added. */
  datatype LpInstance = LpInstance(sense: Sense, names: seq<string>, vars: map<string, LpVariable>,
                                   objective: LinExpr, constraints: seq<Constraint>)

  function Coef(e: LinExpr, v: string): real
  {
    if v in e then e[v] else 0.0
  }

  /** Adding one term to an expression: coefficients of the same variable are summed. */
  function AddTerm(e: LinExpr, t: Term): LinExpr
  {
    e[t.name := Coef(e, t.name) + t.coef]
  }

  /** `lpSum(terms)`: the terms are added one after the other. */
  function LpSum(terms: seq<Term>): LinExpr
  {
    if terms == [] then map[] else AddTerm(LpSum(terms[..|terms| - 1]), terms[|terms| - 1])
  }

  /** The total coefficient that the list of terms puts on `v`. */
  function CoefOf(terms: seq<Term>, v: string): real
  {
    if terms == [] then 0.0
    else CoefOf(terms[..|terms| - 1], v) + (if terms[|terms| - 1].name == v then terms[|terms| - 1].coef else 0.0)
  }

  /** `lpSum` merges the terms of each variable: its coefficient is their total. */
  lemma {:induction false} LpSumCoef(terms: seq<Term>, v: string)
    ensures Coef(LpSum(terms), v) == CoefOf(terms, v)
  {
    if terms != [] {
      LpSumCoef(terms[..|terms| - 1], v);
    }
  }

  /** The value of one term at `x`. */
  function TermValue(t: Term, x: map<string, real>): real
    requires t.name in x
  {
    t.coef * x[t.name]
  }

  /** A term's value depends only on the value of its own variable. */
  lemma TermValueAgrees(t: Term, x: map<string, real>, y: map<string, real>)
    requires t.name in x && t.name in y && x[t.name] == y[t.name]
    ensures TermValue(t, x) == TermValue(t, y)
  {
  }

  /** A term whose variable is zero is worth nothing. */
  lemma TermValueZero(t: Term, x: map<string, real>)
    requires t.name in x && x[t.name] == 0.0
    ensures TermValue(t, x) == 0.0
  {
  }

  /** The value of the list of terms itself, summed left to right. */
  function TermsValue(terms: seq<Term>, x: map<string, real>): real
    requires forall k :: 0 <= k < |terms| ==> terms[k].name in x
  {
    if terms == [] then 0.0
    else TermsValue(terms[..|terms| - 1], x) + TermValue(terms[|terms| - 1], x)
  }

  /** Appending a term adds its value at the end of the sum. */
  lemma TermsValueSnoc(terms: seq<Term>, t: Term, x: map<string, real>)
    requires forall k :: 0 <= k < |terms| ==> terms[k].name in x
    requires t.name in x
    ensures TermsValue(terms + [t], x) == TermsValue(terms, x) + TermValue(t, x)
  {
    var ts := terms + [t];
    assert ts[..|ts| - 1] == terms;
  }

  /** The terms, in order, whose variable has a strictly positive value. */
  function PositiveTerms(terms: seq<Term>, x: map<string, real>): (r: seq<Term>)
    requires forall t :: t in terms ==> t.name in x
    ensures forall t :: t in r <==> t in terms && x[t.name] > 0.0
  {
    if terms == [] then []
    else
      var p, t := terms[..|terms| - 1], terms[|terms| - 1];
      assert terms == p + [t];
      var r := PositiveTerms(p, x);
      if x[t.name] > 0.0 then r + [t] else r
  }

  /** Terms at a zero value add nothing: at non-negative values the sum equals the sum
      of the positive terms, at any point that agrees on their variables. */
  lemma {:induction false} TermsValuePositive(terms: seq<Term>, x: map<string, real>, y: map<string, real>)
    requires forall t :: t in terms ==> t.name in x && x[t.name] >= 0.0
    requires forall t :: t in terms && x[t.name] > 0.0 ==> t.name in y && y[t.name] == x[t.name]
    ensures TermsValue(terms, x) == TermsValue(PositiveTerms(terms, x), y)
  {
    if terms != [] {
      var p, t := terms[..|terms| - 1], terms[|terms| - 1];
      assert terms == p + [t];
      TermsValuePositive(p, x, y);
      var q := PositiveTerms(p, x);
      if x[t.name] > 0.0 {
        TermsValueSnoc(q, t, y);
        TermValueAgrees(t, x, y);
      } else {
        TermValueZero(t, x);
      }
    }
  }

  /** Non-negative coefficients at non-negative values add up to a non-negative total. */
  lemma {:induction false} TermsValueNonNegative(terms: seq<Term>, x: map<string, real>)
    requires forall k :: 0 <= k < |terms| ==> terms[k].name in x
    requires forall k :: 0 <= k < |terms| ==> terms[k].coef >= 0.0 && x[terms[k].name] >= 0.0
    ensures TermsValue(terms, x) >= 0.0
  {
    if terms != [] {
      var p, t := terms[..|terms| - 1], terms[|terms| - 1];
      assert forall k :: 0 <= k < |p| ==> p[k] == terms[k];
      TermsValueNonNegative(p, x);
      assert TermValue(t, x) >= 0.0;
    }
  }

  predicate Covers(x: map<string, real>, names: seq<string>)
  {
    forall v :: v in names ==> v in x
  }

  /** The value of `e` at `x`, summing over the variables `names`. */
  function Eval(e: LinExpr, names: seq<string>, x: map<string, real>): real
    requires Covers(x, names)
  {
    if names == [] then 0.0
    else Coef(e, names[0]) * x[names[0]] + Eval(e, names[1..], x)
  }

  predicate Satisfied(c: Constraint, names: seq<string>, x: map<string, real>)
    requires Covers(x, names)
  {
    Eval(c.lhs, names, x) >= c.rhs
  }

  predicate WithinBounds(v: LpVariable, value: real)
  {
    && (v.lowBound.Some? ==> value >= v.lowBound.value)
    && (v.upBound.Some? ==> value <= v.upBound.value)
  }

  /** `x` gives every variable a value within its bounds and satisfies every constraint. */
  predicate Feasible(inst: LpInstance, x: map<string, real>)
  {
    && Covers(x, inst.names)
    && (forall v :: v in inst.vars ==> v in x && WithinBounds(inst.vars[v], x[v]))
    && forall k :: 0 <= k < |inst.constraints| ==> Satisfied(inst.constraints[k], inst.names, x)
  }

  function ObjectiveValue(inst: LpInstance, x: map<string, real>): real
    requires Covers(x, inst.names)
  {
    Eval(inst.objective, inst.names, x)
  }

  /** Changing the coefficient of a variable outside `names` does not change the value. */
  lemma {:induction false} EvalOutside(e: LinExpr, v: string, c: real, names: seq<string>, x: map<string, real>)
    requires Covers(x, names) && v !in names
    ensures Eval(e[v := c], names, x) == Eval(e, names, x)
  {
    if names != [] {
      EvalOutside(e, v, c, names[1..], x);
    }
  }

  /** Adding a term adds its value, once, when its variable occurs once in `names`. */
  lemma {:induction false} EvalAddTerm(e: LinExpr, t: Term, names: seq<string>, x: map<string, real>)
    requires Covers(x, names) && NoDuplicates(names) && t.name in names
    ensures Eval(AddTerm(e, t), names, x) == Eval(e, names, x) + TermValue(t, x)
  {
    var v, rest := names[0], names[1..];
    assert NoDuplicates(rest);
    var e' := AddTerm(e, t);
    assert Eval(e', names, x) == Coef(e', v) * x[v] + Eval(e', rest, x);
    assert Eval(e, names, x) == Coef(e, v) * x[v] + Eval(e, rest, x);
    if v == t.name {
      assert t.name !in rest;
      EvalOutside(e, t.name, Coef(e, t.name) + t.coef, rest, x);
      assert Coef(e', v) * x[v] == Coef(e, v) * x[v] + t.coef * x[v];
    } else {
      assert t.name in rest;
      EvalAddTerm(e, t, rest, x);
      assert Coef(e', v) == Coef(e, v);
    }
  }

  lemma {:induction false} EvalEmpty(names: seq<string>, x: map<string, real>)
    requires Covers(x, names)
    ensures Eval(map[], names, x) == 0.0
  {
    if names != [] {
      EvalEmpty(names[1..], x);
    }
  }

  /** Linearity of `lpSum`: over distinct variable names that include every term's
      variable, the summed expression has the value of its list of terms. */
  lemma {:induction false} LpSumValue(terms: seq<Term>, names: seq<string>, x: map<string, real>)
    requires Covers(x, names) && NoDuplicates(names)
    requires forall k :: 0 <= k < |terms| ==> terms[k].name in names
    ensures Eval(LpSum(terms), names, x) == TermsValue(terms, x)
  {
    if terms == [] {
      EvalEmpty(names, x);
    } else {
      var p, t := terms[..|terms| - 1], terms[|terms| - 1];
      assert forall k :: 0 <= k < |p| ==> p[k] == terms[k];
      assert LpSum(terms) == AddTerm(LpSum(p), t);
      assert TermsValue(terms, x) == TermsValue(p, x) + TermValue(t, x);
      LpSumValue(p, names, x);
      EvalAddTerm(LpSum(p), t, names, x);
    }
  }

  /** PuLP's `LpProblem`: `problem += expression` sets the objective,
      `problem += constraint` appends a constraint. */
  class LpProblem {
    const name: string
    const sense: Sense
    var objective: Option<LinExpr>
    var constraints: seq<Constraint>

    constructor (name: string, sense: Sense)
      ensures this.name == name && this.sense == sense
      ensures objective == None && constraints == []
    {
      this.name := name;
      this.sense := sense;
      objective := None;
      constraints := [];
    }

    method SetObjective(e: LinExpr)
      modifies this
      ensures objective == Some(e) && constraints == old(constraints)
    {
      objective := Some(e);
    }

    method AddConstraint(c: Constraint)
      modifies this
      ensures constraints == old(constraints) + [c] && objective == old(objective)
    {
      constraints := constraints + [c];
    }
  }
}
