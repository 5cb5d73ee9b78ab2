/** The expected outcomes of the where-clause compile-time tests, one lemma
    per group of test lines. Each states both what the check yields and
    whether the builder returns `bad_statement`; each holds for either order
    of the boolean and aggregate rules. */
module WhereTests {
  import opened WhereExpr
  import opened WhereCheck
  import opened WhereGate

  /** `t.gamma` */
  const TGamma := Col(Gamma)
  /** `t.alpha` */
  const TAlpha := Col(Alpha)
  /** `t.gamma == true` */
  const GammaIsTrue := Compare(Eq, TGamma, Raw(BoolLit(true)))
  /** `t.gamma = true` */
  const GammaAssignTrue := Assign(Gamma, Raw(BoolLit(true)))
  /** `count(t.alpha) > 0` */
  const CountAlphaPositive := Compare(Gt, Count(TAlpha), Raw(IntLit(0)))
  /** `t.gamma and count(t.alpha) > 0` */
  const GammaAndCountAlphaPositive := And(TGamma, CountAlphaPositive)

  /** The harness's two assertions for `where_static_check<Assert>(exprs...)`. */
  predicate StaticOutcome(order: Order, exprs: seq<Expr>, expected: Verdict) {
    && Check(order, Static, RemoveFrom.isDynamic, exprs) == expected
    && (VerdictValue(expected) != Where(order, RemoveFrom, exprs).BadStatement?)
  }

  /** The harness's two assertions for `set_dynamic_check<Assert>(exprs...)`. */
  predicate DynamicOutcome(order: Order, exprs: seq<Expr>, expected: Verdict) {
    && Check(order, Dynamic, DynamicRemoveFrom.isDynamic, exprs) == expected
    && (VerdictValue(expected) != DynamicWhere(order, DynamicRemoveFrom, exprs).BadStatement?)
  }

  lemma StaticBooleanConditionsConsistent(order: Order)
    ensures StaticOutcome(order, [TGamma], Consistent)
    ensures StaticOutcome(order, [GammaIsTrue], Consistent)
    ensures Where(order, RemoveFrom, [TGamma]).Statement?
  {
  }

  lemma StaticNoArgumentRejected(order: Order)
    ensures StaticOutcome(order, [], Failed(WhereStaticCountArgs))
    ensures Where(order, RemoveFrom, []).BadStatement?
  {
  }

  lemma StaticAssignmentRejected(order: Order)
    ensures StaticOutcome(order, [GammaAssignTrue], Failed(WhereExpressions))
  {
    NonExpressionReportedFirst(order, [GammaAssignTrue], 0);
  }

  lemma StaticNonBooleanColumnRejected(order: Order)
    ensures StaticOutcome(order, [TAlpha], Failed(WhereBoolean))
  {
    var exprs := [TAlpha];
    assert !IsBoolean(exprs[0]) && Fires(WhereBoolean, Static, false, exprs);
    FirstRuleIsVerdict(order, Static, false, exprs, WhereBoolean);
  }

  lemma StaticHostValuesRejected(order: Order)
    ensures StaticOutcome(order, [Raw(StringLit("true"))], Failed(WhereExpressions))
    ensures StaticOutcome(order, [Raw(IntLit(17))], Failed(WhereExpressions))
    ensures StaticOutcome(order, [Raw(CharLit('c'))], Failed(WhereExpressions))
    ensures StaticOutcome(order, [Raw(NullPtr)], Failed(WhereExpressions))
  {
    NonExpressionReportedFirst(order, [Raw(StringLit("true"))], 0);
    NonExpressionReportedFirst(order, [Raw(IntLit(17))], 0);
    NonExpressionReportedFirst(order, [Raw(CharLit('c'))], 0);
    NonExpressionReportedFirst(order, [Raw(NullPtr)], 0);
  }

  lemma StaticAggregatesRejected(order: Order)
    ensures StaticOutcome(order, [CountAlphaPositive], Failed(WhereNoAggregateFunctions))
    ensures StaticOutcome(order, [GammaAndCountAlphaPositive], Failed(WhereNoAggregateFunctions))
  {
    AggregateReportedDespiteBoolean(order, false, [CountAlphaPositive], 0);
    AggregateReportedDespiteBoolean(order, false, [GammaAndCountAlphaPositive], 0);
  }

  lemma DynamicEmptyConsistent(order: Order)
    ensures DynamicOutcome(order, [], Consistent)
    ensures DynamicWhere(order, DynamicRemoveFrom, []).Statement?
  {
  }

  /** `check_where_dynamic_t<void>` and `remove_from(t).dynamic_where()`. */
  lemma DynamicWhereOnStaticStatementRejected(order: Order)
    ensures Check(order, Dynamic, false, []) == Failed(WhereDynamicStatementDynamic)
    ensures DynamicWhere(order, RemoveFrom, []) == BadStatement
  {
  }
}
