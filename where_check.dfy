/** The WHERE-clause consistency check: an ordered list of single checks,
    each a condition paired with the assertion type reported when it fails;
    the verdict is the assertion of the first failing check, or
    `consistent_t` when none fails. */
module WhereCheck {
  import opened WhereExpr

  /** The assertion types a failing check reports. */
  datatype Assertion =
    | WhereDynamicStatementDynamic   // assert_where_dynamic_statement_dynamic_t
    | WhereStaticCountArgs           // assert_where_static_count_args_t
    | WhereExpressions               // assert_where_expressions_t
    | WhereBoolean                   // assert_where_boolean_t
    | WhereNoAggregateFunctions      // assert_where_no_aggregate_functions_t

  /** `consistent_t`, or the assertion type of the rule that fired. */
  datatype Verdict = Consistent | Failed(assertion: Assertion)

  /** `Assert::value` as the test harness reads it: true for `consistent_t`,
      false for every assertion type. */
  predicate VerdictValue(v: Verdict) {
    v.Consistent?
  }

  /** A single check: the condition that must hold, and what is reported
      when it does not. */
  datatype SingleCheck = SingleCheck(ok: bool, failure: Assertion)

  /** The relative order of the boolean rule and the aggregate rule. No
      test makes both fire at once, so the model keeps both orders open and
      every property below holds for either. */
  datatype Order = BooleanFirst | AggregateFirst

  /** Whether the statement mode is `where` (static) or `dynamic_where`. */
  datatype Mode = Static | Dynamic

  /** First failing check wins. */
  function Combined(checks: seq<SingleCheck>): (r: Verdict)
    ensures r.Consistent? <==> forall i :: 0 <= i < |checks| ==> checks[i].ok
    ensures r.Failed? ==>
      exists i :: 0 <= i < |checks| && !checks[i].ok && checks[i].failure == r.assertion
        && forall j :: 0 <= j < i ==> checks[j].ok
  {
    if |checks| == 0 then Consistent
    else if !checks[0].ok then Failed(checks[0].failure)
    else Combined(checks[1..])
  }

  predicate AllExpressions(exprs: seq<Expr>) {
    forall i :: 0 <= i < |exprs| ==> IsExpression(exprs[i])
  }

  predicate AllBoolean(exprs: seq<Expr>) {
    forall i :: 0 <= i < |exprs| ==> IsBoolean(exprs[i])
  }

  predicate NoAggregate(exprs: seq<Expr>) {
    forall i :: 0 <= i < |exprs| ==> !ContainsAggregate(exprs[i])
  }

  /** The checks shared by `where` and `dynamic_where`: every argument an SQL
      expression, then boolean and free of aggregates in the given order. */
  function ExpressionChecks(order: Order, exprs: seq<Expr>): seq<SingleCheck> {
    var boolean := SingleCheck(AllBoolean(exprs), WhereBoolean);
    var aggregate := SingleCheck(NoAggregate(exprs), WhereNoAggregateFunctions);
    [SingleCheck(AllExpressions(exprs), WhereExpressions)]
      + (if order == BooleanFirst then [boolean, aggregate] else [aggregate, boolean])
  }

  /** The verdict of the shared checks once the first check has passed,
      written out rule by rule. */
  function ExpressionVerdict(order: Order, exprs: seq<Expr>): Verdict {
    if !AllExpressions(exprs) then Failed(WhereExpressions)
    else if order == BooleanFirst then
      (if !AllBoolean(exprs) then Failed(WhereBoolean)
       else if !NoAggregate(exprs) then Failed(WhereNoAggregateFunctions)
       else Consistent)
    else
      (if !NoAggregate(exprs) then Failed(WhereNoAggregateFunctions)
       else if !AllBoolean(exprs) then Failed(WhereBoolean)
       else Consistent)
  }

  lemma CombinedAfterPassingCheck(first: SingleCheck, order: Order, exprs: seq<Expr>)
    ensures Combined([first] + ExpressionChecks(order, exprs))
         == if first.ok then ExpressionVerdict(order, exprs) else Failed(first.failure)
  {
    var rest := ExpressionChecks(order, exprs);
    assert ([first] + rest)[1..] == rest;
    assert |rest| == 3;
    var second, third := rest[1], rest[2];
    assert rest[1..] == [second, third];
    assert [second, third][1..] == [third];
    assert [third][1..] == [];
  }

  /** No rule fires exactly when each of the five does not. */
  lemma NoRuleFires(mode: Mode, isDynamicStatement: bool, exprs: seq<Expr>)
    ensures (forall a :: !Fires(a, mode, isDynamicStatement, exprs))
        <==> && !Fires(WhereDynamicStatementDynamic, mode, isDynamicStatement, exprs)
             && !Fires(WhereStaticCountArgs, mode, isDynamicStatement, exprs)
             && !Fires(WhereExpressions, mode, isDynamicStatement, exprs)
             && !Fires(WhereBoolean, mode, isDynamicStatement, exprs)
             && !Fires(WhereNoAggregateFunctions, mode, isDynamicStatement, exprs)
  {
  }

  /** The reference definition of each rule, independent of the check list. */
  predicate Fires(a: Assertion, mode: Mode, isDynamicStatement: bool, exprs: seq<Expr>) {
    match a
    case WhereDynamicStatementDynamic => mode == Dynamic && !isDynamicStatement
    case WhereStaticCountArgs => mode == Static && |exprs| == 0
    case WhereExpressions => exists i :: 0 <= i < |exprs| && !IsExpression(exprs[i])
    case WhereBoolean => exists i :: 0 <= i < |exprs| && !IsBoolean(exprs[i])
    case WhereNoAggregateFunctions => exists i :: 0 <= i < |exprs| && ContainsAggregate(exprs[i])
  }

  /** The priority of each rule: a rule of smaller rank is reported before a
      rule of larger rank. The boolean and aggregate rules share a rank, as
      nothing orders them. */
  function Rank(a: Assertion): nat {
    match a
    case WhereDynamicStatementDynamic => 0
    case WhereStaticCountArgs => 1
    case WhereExpressions => 2
    case WhereBoolean => 3
    case WhereNoAggregateFunctions => 3
  }

  /** What a verdict must satisfy: consistent exactly when no rule fires,
      and otherwise a rule that fires while no rule of higher priority does. */
  predicate MeetsRules(r: Verdict, mode: Mode, isDynamicStatement: bool, exprs: seq<Expr>) {
    && (r.Consistent? <==> forall a :: !Fires(a, mode, isDynamicStatement, exprs))
    && (r.Failed? ==> Fires(r.assertion, mode, isDynamicStatement, exprs))
    && (r.Failed? ==> forall b :: Rank(b) < Rank(r.assertion) ==> !Fires(b, mode, isDynamicStatement, exprs))
  }

  /** The checker's verdict written as one chain of rules. */
  function ChainVerdict(order: Order, mode: Mode, isDynamicStatement: bool, exprs: seq<Expr>): Verdict {
    if Fires(WhereDynamicStatementDynamic, mode, isDynamicStatement, exprs) then Failed(WhereDynamicStatementDynamic)
    else if Fires(WhereStaticCountArgs, mode, isDynamicStatement, exprs) then Failed(WhereStaticCountArgs)
    else ExpressionVerdict(order, exprs)
  }

  lemma ChainMeetsRules(order: Order, mode: Mode, isDynamicStatement: bool, exprs: seq<Expr>)
    ensures MeetsRules(ChainVerdict(order, mode, isDynamicStatement, exprs), mode, isDynamicStatement, exprs)
  {
    var r := ChainVerdict(order, mode, isDynamicStatement, exprs);
    NoRuleFires(mode, isDynamicStatement, exprs);
    if r.Failed? {
      forall b | Rank(b) < Rank(r.assertion) ensures !Fires(b, mode, isDynamicStatement, exprs) {
        match b
        case WhereDynamicStatementDynamic =>
        case WhereStaticCountArgs =>
        case WhereExpressions =>
        case WhereBoolean =>
        case WhereNoAggregateFunctions =>
      }
    }
  }

  /** `check_where_static_t<Expressions...>`, modelled as the argument-count
      check followed by the shared checks. It meets the rules of static mode,
      whatever the statement. */
  function CheckWhereStatic(order: Order, exprs: seq<Expr>): (r: Verdict)
    ensures MeetsRules(r, Static, false, exprs)
    ensures MeetsRules(r, Static, true, exprs)
  {
    ChainMeetsRules(order, Static, false, exprs);
    ChainMeetsRules(order, Static, true, exprs);
    CombinedAfterPassingCheck(SingleCheck(|exprs| != 0, WhereStaticCountArgs), order, exprs);
    Combined([SingleCheck(|exprs| != 0, WhereStaticCountArgs)] + ExpressionChecks(order, exprs))
  }

  /** `check_where_dynamic_t<Database, Expressions...>`, modelled as the
      dynamic-statement check followed by the shared checks;
      `isDynamicStatement` is false exactly when `Database` is `void`. */
  function CheckWhereDynamic(order: Order, isDynamicStatement: bool, exprs: seq<Expr>): (r: Verdict)
    ensures MeetsRules(r, Dynamic, isDynamicStatement, exprs)
  {
    ChainMeetsRules(order, Dynamic, isDynamicStatement, exprs);
    CombinedAfterPassingCheck(SingleCheck(isDynamicStatement, WhereDynamicStatementDynamic), order, exprs);
    Combined([SingleCheck(isDynamicStatement, WhereDynamicStatementDynamic)] + ExpressionChecks(order, exprs))
  }

  /** The checker for either mode: consistent exactly when no rule fires,
      and otherwise a rule that fires while no rule of higher priority does. */
  function Check(order: Order, mode: Mode, isDynamicStatement: bool, exprs: seq<Expr>): (r: Verdict)
    ensures MeetsRules(r, mode, isDynamicStatement, exprs)
  {
    match mode
    case Static => CheckWhereStatic(order, exprs)
    case Dynamic => CheckWhereDynamic(order, isDynamicStatement, exprs)
  }

  /** A rule that fires ahead of every other rule that fires is the verdict,
      whichever order the boolean and aggregate rules take. */
  lemma FirstRuleIsVerdict(order: Order, mode: Mode, isDynamicStatement: bool, exprs: seq<Expr>, a: Assertion)
    requires Fires(a, mode, isDynamicStatement, exprs)
    requires forall b :: b != a && Fires(b, mode, isDynamicStatement, exprs) ==> Rank(a) < Rank(b)
    ensures Check(order, mode, isDynamicStatement, exprs) == Failed(a)
  {
  }

  /** The checker's verdict is its rule-by-rule chain. */
  lemma CheckIsChain(order: Order, mode: Mode, isDynamicStatement: bool, exprs: seq<Expr>)
    ensures Check(order, mode, isDynamicStatement, exprs) == ChainVerdict(order, mode, isDynamicStatement, exprs)
  {
    if mode == Static {
      CombinedAfterPassingCheck(SingleCheck(|exprs| != 0, WhereStaticCountArgs), order, exprs);
    } else {
      CombinedAfterPassingCheck(SingleCheck(isDynamicStatement, WhereDynamicStatementDynamic), order, exprs);
    }
  }

  /** The open order between the boolean and the aggregate rule is visible
      only when both fire and no rule of higher priority does. */
  lemma OrderVisibleOnlyWhenBothFire(mode: Mode, isDynamicStatement: bool, exprs: seq<Expr>)
    ensures Check(BooleanFirst, mode, isDynamicStatement, exprs) != Check(AggregateFirst, mode, isDynamicStatement, exprs)
        <==> && Fires(WhereBoolean, mode, isDynamicStatement, exprs)
             && Fires(WhereNoAggregateFunctions, mode, isDynamicStatement, exprs)
             && forall b :: Rank(b) < 3 ==> !Fires(b, mode, isDynamicStatement, exprs)
  {
    CheckIsChain(BooleanFirst, mode, isDynamicStatement, exprs);
    CheckIsChain(AggregateFirst, mode, isDynamicStatement, exprs);
    var higher := forall b :: Rank(b) < 3 ==> !Fires(b, mode, isDynamicStatement, exprs);
    var firstTwo := && !Fires(WhereDynamicStatementDynamic, mode, isDynamicStatement, exprs)
                    && !Fires(WhereStaticCountArgs, mode, isDynamicStatement, exprs);
    assert higher <==> firstTwo && AllExpressions(exprs) by {
      if !higher {
        var b :| Rank(b) < 3 && Fires(b, mode, isDynamicStatement, exprs);
      }
    }
  }

  /** Where the argument-count check stands in the list is unobservable: it
      fails only on an empty list, on which every shared check passes. */
  lemma CountCheckPositionIrrelevant(order: Order, exprs: seq<Expr>)
    ensures CheckWhereStatic(order, exprs)
         == Combined(ExpressionChecks(order, exprs) + [SingleCheck(|exprs| != 0, WhereStaticCountArgs)])
  {
    var count := SingleCheck(|exprs| != 0, WhereStaticCountArgs);
    var rest := ExpressionChecks(order, exprs);
    CombinedAfterPassingCheck(count, order, exprs);
    var last := rest + [count];
    assert |last| == 4;
    assert last[1..][1..][1..] == [count];
    assert [count][1..] == [];
  }

  /** A static where with no argument reports the missing argument, whatever
      the statement. */
  lemma EmptyStaticWhereRejected(order: Order, isDynamicStatement: bool)
    ensures Check(order, Static, isDynamicStatement, []) == Failed(WhereStaticCountArgs)
  {
  }

  /** A dynamic where with no argument is consistent exactly on a dynamic
      statement, and otherwise reports that the statement is not dynamic. */
  lemma EmptyDynamicWhereVerdict(order: Order, isDynamicStatement: bool)
    ensures Check(order, Dynamic, isDynamicStatement, [])
         == if isDynamicStatement then Consistent else Failed(WhereDynamicStatementDynamic)
  {
  }

  /** An argument that is not an SQL expression (an assignment, a host value)
      is reported as such, ahead of the boolean check it also fails. */
  lemma NonExpressionReportedFirst(order: Order, exprs: seq<Expr>, i: nat)
    requires i < |exprs| && !IsExpression(exprs[i])
    ensures Check(order, Static, false, exprs) == Failed(WhereExpressions)
    ensures Check(order, Static, true, exprs) == Failed(WhereExpressions)
  {
    forall dyn: bool ensures Check(order, Static, dyn, exprs) == Failed(WhereExpressions) {
      forall b | b != WhereExpressions && Fires(b, Static, dyn, exprs)
        ensures Rank(WhereExpressions) < Rank(b)
      {
        assert b != WhereDynamicStatementDynamic && b != WhereStaticCountArgs;
      }
      FirstRuleIsVerdict(order, Static, dyn, exprs, WhereExpressions);
    }
  }

  /** An aggregate inside boolean SQL conditions is still reported: being
      boolean is not enough. */
  lemma AggregateReportedDespiteBoolean(order: Order, isDynamicStatement: bool, exprs: seq<Expr>, i: nat)
    requires AllBoolean(exprs)
    requires i < |exprs| && ContainsAggregate(exprs[i])
    ensures Check(order, Static, isDynamicStatement, exprs) == Failed(WhereNoAggregateFunctions)
  {
    forall b | b != WhereNoAggregateFunctions
      ensures !Fires(b, Static, isDynamicStatement, exprs)
    {
      match b
      case WhereDynamicStatementDynamic =>
      case WhereStaticCountArgs =>
      case WhereExpressions =>
      case WhereBoolean =>
    }
    FirstRuleIsVerdict(order, Static, isDynamicStatement, exprs, WhereNoAggregateFunctions);
  }

  /** A static where with a single argument is consistent exactly when that
      argument is a boolean SQL expression free of aggregates. */
  lemma SingleConditionConsistent(order: Order, isDynamicStatement: bool, e: Expr)
    ensures Check(order, Static, isDynamicStatement, [e]) == Consistent
        <==> IsBoolean(e) && !ContainsAggregate(e)
  {
    NoRuleFires(Static, isDynamicStatement, [e]);
    assert [e][0] == e;
  }
}
