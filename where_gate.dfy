/** The statement gate: `where(...)` and `dynamic_where(...)` on a remove
    statement return the extended statement when the check is consistent and
    `bad_statement` otherwise. */
module WhereGate {
  import opened WhereExpr
  import opened WhereCheck

  /** The where part of a statement: none yet, or the clause with its
      arguments and whether it may still be extended at run time. */
  datatype WherePart = NoWhere | WhereClause(dynamic: bool, conditions: seq<Expr>)

  /** A remove statement; `isDynamic` holds for `dynamic_remove_from(db, t)`
      and not for `remove_from(t)`. */
  datatype RemoveStatement = RemoveStatement(isDynamic: bool, where: WherePart)

  /** What a builder call returns: a usable statement, or the sentinel. */
  datatype Built = Statement(statement: RemoveStatement) | BadStatement

  /** `remove_from(t)`. */
  const RemoveFrom := RemoveStatement(false, NoWhere)

  /** `dynamic_remove_from(db, t)`. */
  const DynamicRemoveFrom := RemoveStatement(true, NoWhere)

  /** The sentinel comes back exactly when the verdict's value is false;
      otherwise the statement is the one handed in. */
  function Gate(v: Verdict, s: RemoveStatement): (r: Built)
    ensures VerdictValue(v) != r.BadStatement?
    ensures r.Statement? ==> r.statement == s
  {
    if v.Consistent? then Statement(s) else BadStatement
  }

  /** `s.where(exprs...)`: gated by the static check. */
  function Where(order: Order, s: RemoveStatement, exprs: seq<Expr>): (r: Built)
    ensures VerdictValue(Check(order, Static, s.isDynamic, exprs)) != r.BadStatement?
    ensures r.Statement? ==> r.statement == s.(where := WhereClause(false, exprs))
  {
    Gate(CheckWhereStatic(order, exprs), s.(where := WhereClause(false, exprs)))
  }

  /** `s.dynamic_where(exprs...)`: gated by the dynamic check, which reads
      whether `s` is a dynamic statement. */
  function DynamicWhere(order: Order, s: RemoveStatement, exprs: seq<Expr>): (r: Built)
    ensures VerdictValue(Check(order, Dynamic, s.isDynamic, exprs)) != r.BadStatement?
    ensures r.Statement? ==> r.statement == s.(where := WhereClause(true, exprs))
  {
    Gate(CheckWhereDynamic(order, s.isDynamic, exprs), s.(where := WhereClause(true, exprs)))
  }

  /** A static where accepts a single argument exactly when it is a boolean
      SQL expression without aggregates (being boolean implies being an SQL
      expression). */
  lemma WhereAcceptsSingleCondition(order: Order, s: RemoveStatement, e: Expr)
    ensures Where(order, s, [e]).Statement? <==> IsBoolean(e) && !ContainsAggregate(e)
  {
    SingleConditionConsistent(order, s.isDynamic, e);
  }

  /** A dynamic where without arguments is rejected exactly on a statement
      that is not dynamic. */
  lemma EmptyDynamicWhereGated(order: Order, s: RemoveStatement)
    ensures DynamicWhere(order, s, []).BadStatement? <==> !s.isDynamic
  {
    EmptyDynamicWhereVerdict(order, s.isDynamic);
  }
}
