# sqlpp11 WHERE-clause consistency check

A model of how sqlpp11 decides whether `where(...)` and `dynamic_where(...)`
on a remove statement are well formed, as fixed by the compile-time test
`test_static_asserts/where.cpp`:

- **Classifier** (`WhereExpr`, file `where_expr.dfy`): a small expression
  tree (columns `t.alpha` and `t.gamma`, raw host values, assignment,
  `==`/`>` comparison, `and`, `count`) and the facts read off each argument:
  is it an SQL expression, an assignment, boolean, does it contain an
  aggregate (recursively, checked against a subterm-based reference
  definition).
- **Checker** (`WhereCheck`, `where_check.dfy`): the check is modelled as a
  list of single checks, each a condition plus an assertion type, of which
  the first that fails is reported (`consistent_t` if none does).
  `check_where_static_t` is modelled as the argument-count check followed by
  the shared checks (all SQL expressions, all boolean, no aggregate);
  `check_where_dynamic_t` as the "the statement is dynamic" check
  (`Database` is not `void`) followed by the same shared checks. Each rule
  also has a reference definition (`Fires`) and a priority (`Rank`); the
  checker is proved to be consistent exactly when no rule fires and otherwise
  to report a firing rule with no firing rule of higher priority.
- **Gate** (`WhereGate`, `where_gate.dfy`): the builder returns the extended
  statement when the verdict is `consistent_t` and `bad_statement`
  otherwise — the relation `Assert::value xor is_same<ReturnType,
  bad_statement>` the test harness checks.
- **Test outcomes** (`WhereTests`, `where_tests.dfy`): one lemma per group of
  test lines, stating the check result and the return type.

The headers that define `check_where_static_t`, `check_where_dynamic_t`,
`bad_statement` and the static-check combinators are not part of this model;
the inner structure of the checks is reconstructed from the outcomes
`test_static_asserts/where.cpp` fixes. Raw host values (`"true"`, `17`, `'c'`,
`nullptr`) are not SQL expressions, so they report
`assert_where_expressions_t` (where.cpp:94-97).

The relative order of the boolean rule and the aggregate rule is not fixed
by any test, so it is a parameter (`Order`) of every check; every property
holds for both orders, and `OrderVisibleOnlyWhenBothFire` states exactly when
the choice shows. The position of the argument-count check is likewise
unobservable (`CountCheckPositionIrrelevant`).

## Model

| member | source | states |
|---|---|---|
| WhereExpr.IsExpression | test_static_asserts/where.cpp:87-97 | definition: everything but assignments and raw host values is an SQL expression; its ensures only record the two excluded cases |
| WhereExpr.IsAssignment | test_static_asserts/where.cpp:88 | definition: the top-level node binds a value to a column; `IsExpression` records that such a node is not an SQL expression |
| WhereExpr.IsBoolean | test_static_asserts/where.cpp:80-91 | definition of boolean-ness (gamma, comparisons, `and`); its one relational ensures is that a boolean argument is an SQL expression, which is why an assignment reports the expressions assertion first |
| WhereExpr.ContainsAggregate | test_static_asserts/where.cpp:99-101 | definition of recursive aggregate detection; its property is stated by `ContainsAggregateIffSomeSubterm` |
| WhereExpr.ContainsAggregateIffSomeSubterm | test_static_asserts/where.cpp:99-101 | aggregate detection holds exactly when some node of the tree, at any depth under `and` or a comparison, is an aggregate |
| WhereCheck.VerdictValue | test_static_asserts/where.cpp:57 | definition of `Assert::value`: true for `consistent_t` only; used by the gate's ensures |
| WhereCheck.CheckWhereStatic | test_static_asserts/where.cpp:50 | `check_where_static_t` meets the static-mode rules on any statement: consistent exactly when no rule fires, otherwise a firing rule with no higher-priority rule firing |
| WhereCheck.CheckWhereDynamic | test_static_asserts/where.cpp:66 | `check_where_dynamic_t` meets the dynamic-mode rules: consistent exactly when no rule fires, otherwise a firing rule with no higher-priority rule firing |
| WhereCheck.Combined | test_static_asserts/where.cpp:50-53 | the combined check is consistent exactly when every single check holds, and otherwise reports the assertion of the first failing one |
| WhereCheck.Check | test_static_asserts/where.cpp:47-76 | in both modes the verdict is consistent exactly when no rule fires, and otherwise names a firing rule such that no rule of higher priority fires |
| WhereCheck.FirstRuleIsVerdict | test_static_asserts/where.cpp:84-101 | a rule that fires ahead of every other firing rule is the verdict, for either order of the boolean and aggregate rules |
| WhereCheck.OrderVisibleOnlyWhenBothFire | test_static_asserts/where.cpp:90-101 | the two orders of the boolean and aggregate rules give different verdicts exactly when both rules fire and no higher rule does |
| WhereCheck.CountCheckPositionIrrelevant | test_static_asserts/where.cpp:84-85 | placing the argument-count check first or last in the static check gives the same verdict |
| WhereCheck.EmptyStaticWhereRejected | test_static_asserts/where.cpp:85 | a static where with no arguments reports `assert_where_static_count_args_t` on any statement |
| WhereCheck.EmptyDynamicWhereVerdict | test_static_asserts/where.cpp:108-132 | a dynamic where with no arguments is consistent on a dynamic statement and reports `assert_where_dynamic_statement_dynamic_t` otherwise |
| WhereCheck.NonExpressionReportedFirst | test_static_asserts/where.cpp:87-97 | any argument that is not an SQL expression (assignment, host value) makes a static where report `assert_where_expressions_t`, never `assert_where_boolean_t` |
| WhereCheck.AggregateReportedDespiteBoolean | test_static_asserts/where.cpp:99-101 | boolean arguments (hence SQL expressions) of which one contains an aggregate report `assert_where_no_aggregate_functions_t` |
| WhereCheck.SingleConditionConsistent | test_static_asserts/where.cpp:80-101 | a static where on one argument is consistent exactly when it is boolean (hence an SQL expression) and without aggregates |
| WhereGate.Gate | test_static_asserts/where.cpp:55-57 | the result is `bad_statement` exactly when the verdict's value is false; otherwise it is the statement handed in |
| WhereGate.Where | test_static_asserts/where.cpp:55-59 | `where(...)` returns `bad_statement` exactly when the static check is not consistent, else the statement with the clause attached |
| WhereGate.DynamicWhere | test_static_asserts/where.cpp:71-75 | `dynamic_where(...)` returns `bad_statement` exactly when the dynamic check is not consistent, else the statement with the dynamic clause attached |
| WhereGate.WhereAcceptsSingleCondition | test_static_asserts/where.cpp:78-101 | `where(e)` yields a usable statement exactly when `e` is boolean (hence an SQL expression) and free of aggregates |
| WhereGate.EmptyDynamicWhereGated | test_static_asserts/where.cpp:134-137 | `dynamic_where()` returns `bad_statement` exactly on a statement that is not dynamic |
| WhereTests.StaticBooleanConditionsConsistent | test_static_asserts/where.cpp:81-82 | `t.gamma` and `t.gamma == true` are consistent and yield a statement |
| WhereTests.StaticNoArgumentRejected | test_static_asserts/where.cpp:85 | no argument gives `assert_where_static_count_args_t` and `bad_statement` |
| WhereTests.StaticAssignmentRejected | test_static_asserts/where.cpp:88 | `t.gamma = true` gives `assert_where_expressions_t` and `bad_statement` |
| WhereTests.StaticNonBooleanColumnRejected | test_static_asserts/where.cpp:91 | `t.alpha` gives `assert_where_boolean_t` and `bad_statement` |
| WhereTests.StaticHostValuesRejected | test_static_asserts/where.cpp:94-97 | `"true"`, `17`, `'c'` and `nullptr` each give `assert_where_expressions_t` and `bad_statement` |
| WhereTests.StaticAggregatesRejected | test_static_asserts/where.cpp:100-101 | `count(t.alpha) > 0` and `t.gamma and count(t.alpha) > 0` give `assert_where_no_aggregate_functions_t` and `bad_statement` |
| WhereTests.DynamicEmptyConsistent | test_static_asserts/where.cpp:108 | `dynamic_where()` on a dynamic statement is consistent and yields a statement |
| WhereTests.DynamicWhereOnStaticStatementRejected | test_static_asserts/where.cpp:129-137 | `check_where_dynamic_t<void>` gives `assert_where_dynamic_statement_dynamic_t` and `remove_from(t).dynamic_where()` is `bad_statement` |

Lines 109-126 repeat the static checks of lines 81-101 with the same
`remove_from(t).where(...)` call, so the `WhereTests.Static*` lemmas state
them too.

## Left out

- `MockDb`, the construction of `remove_from(t)` and `dynamic_remove_from(db, t)`, serialization and execution: they live in headers that are not part of this model or perform I/O; a statement is reduced to whether it is dynamic and its where part.
- The refusal to execute or serialize `bad_statement`: execution is not modelled, so the model stops at returning the sentinel.
- `print_type_on_error` and `T::_print_me_`: a compiler-diagnostic device with no behaviour.
- The table metadata of `Sample.h`: only what the tests use is encoded (`gamma` boolean, `alpha` not boolean).
- Operand typing inside comparisons and `and` (which operands the expression grammar accepts): the model classifies only the node handed to `where`.
- That `.where` exists only on a statement without a where clause yet: that is a property of the statement templates, not shown; `Where` simply attaches the clause.
- WhereCheck.Check: does not fix which of `assert_where_boolean_t` and `assert_where_no_aggregate_functions_t` is reported when both rules fire, because no test decides it; the order is the `Order` parameter.
- WhereGate.DynamicWhere: the model assumes the dynamic check applies the shared rules to non-empty lists; its contracts and lemmas (`Check`, `CheckWhereDynamic`, `FirstRuleIsVerdict`, `OrderVisibleOnlyWhenBothFire`) state those outcomes, but no line of where.cpp fixes them.
- Determinism of classification and of the verdict holds because every member is a function; no separate lemma states it.
