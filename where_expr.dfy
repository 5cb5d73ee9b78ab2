/** The expression classifier: the static facts the WHERE-clause check reads
    off each argument handed to `where(...)` or `dynamic_where(...)`. */
module WhereExpr {

  /** The columns of the sample table `t` that the tests use. Only their
      value type matters here: `gamma` is boolean, `alpha` is not. */
  datatype Column = Alpha | Gamma

  predicate IsBooleanColumn(c: Column) {
    c == Gamma
  }

  /** A value of the host language (C++) passed as it is. */
  datatype HostValue =
    | StringLit(s: string)
    | IntLit(i: int)
    | CharLit(c: char)
    | BoolLit(b: bool)
    | NullPtr

  datatype CompareOp = Eq | Gt

  /** An argument of a where clause. `Raw` at the top level is a host value
      that never became an SQL expression (`where(17)`); as an operand of a
      comparison, the operator itself wraps it into an SQL value, so only the
      comparison node is classified there. */
  datatype Expr =
    | Col(col: Column)
    | Raw(value: HostValue)
    | Assign(target: Column, rhs: Expr)
    | Compare(op: CompareOp, lhs: Expr, rhs: Expr)
    | And(left: Expr, right: Expr)
    | Count(arg: Expr)

  /** Whether the argument is an SQL expression at all: host values and
      assignments (`t.gamma = true`) are not. */
  function IsExpression(e: Expr): (r: bool)
    ensures IsAssignment(e) ==> !r
    ensures e.Raw? ==> !r
  {
    match e
    case Raw(_) => false
    case Assign(_, _) => false
    case _ => true
  }

  /** Whether the top-level operator binds a value to a column. */
  predicate IsAssignment(e: Expr) {
    e.Assign?
  }

  /** Whether the argument's SQL value type is boolean: a boolean column, a
      comparison or a conjunction. A count is numeric; a host value or an
      assignment has no SQL value type. */
  function IsBoolean(e: Expr): (r: bool)
    ensures r ==> IsExpression(e)
    ensures e.Col? ==> (r <==> IsBooleanColumn(e.col))
    ensures e.Count? ==> !r
  {
    match e
    case Col(c) => IsBooleanColumn(c)
    case Compare(_, _, _) => true
    case And(_, _) => true
    case _ => false
  }

  /** Whether an aggregate function occurs anywhere in the argument,
      looking through comparisons, conjunctions and assignments. */
  predicate ContainsAggregate(e: Expr) {
    match e
    case Col(_) => false
    case Raw(_) => false
    case Assign(_, rhs) => ContainsAggregate(rhs)
    case Compare(_, lhs, rhs) => ContainsAggregate(lhs) || ContainsAggregate(rhs)
    case And(left, right) => ContainsAggregate(left) || ContainsAggregate(right)
    case Count(_) => true
  }

  /** Every node of the argument's tree, the argument itself included. */
  function Subterms(e: Expr): (r: set<Expr>)
    ensures e in r
  {
    match e
    case Col(_) => {e}
    case Raw(_) => {e}
    case Assign(_, rhs) => {e} + Subterms(rhs)
    case Compare(_, lhs, rhs) => {e} + Subterms(lhs) + Subterms(rhs)
    case And(left, right) => {e} + Subterms(left) + Subterms(right)
    case Count(arg) => {e} + Subterms(arg)
  }

  /** Aggregate detection agrees with its reference definition: some node of
      the tree, however deeply nested, is an aggregate function. */
  lemma {:induction false} ContainsAggregateIffSomeSubterm(e: Expr)
    ensures ContainsAggregate(e) <==> exists s :: s in Subterms(e) && s.Count?
  {
    match e
    case Col(_) =>
    case Raw(_) =>
    case Assign(_, rhs) =>
      ContainsAggregateIffSomeSubterm(rhs);
    case Compare(_, lhs, rhs) =>
      ContainsAggregateIffSomeSubterm(lhs);
      ContainsAggregateIffSomeSubterm(rhs);
    case And(left, right) =>
      ContainsAggregateIffSomeSubterm(left);
      ContainsAggregateIffSomeSubterm(right);
    case Count(_) =>
      assert e in Subterms(e);
  }
}
