/**
 * The filtering side of the query model: the sort clauses a filter can carry
 * and the query builder that sort clause query builders write into.
 */
module Filter {
  import opened Query

  /** The PHP class of a filtering sort clause, as `instanceof` sees it. */
  datatype SortClauseClass =
    | ContentName
    // Any other filtering sort clause class; `className` never names ContentName
    // or a subclass of it, so each class has exactly one representation here.
    | OtherClause(className: string)

  /** A filtering sort clause: its class, its sort target and its direction. */
  datatype FilteringSortClause = FilteringSortClause(
    kind: SortClauseClass,
    sortTarget: string,
    direction: Direction)

  /** One ORDER BY entry: the column or expression, then the direction. */
  datatype OrderBy = OrderBy(sort: string, order: Direction)

  /**
   * The caller-owned query builder. Only the ORDER BY list is kept in detail,
   * with the joins and conditions, which NameSortClauseQueryBuilder leaves alone.
   */
  class FilteringQueryBuilder {
    var orderBy: seq<OrderBy>
    var joins: seq<string>
    var conditions: seq<string>

    constructor (joins: seq<string>, conditions: seq<string>)
      ensures this.orderBy == [] && this.joins == joins && this.conditions == conditions
    {
      this.orderBy := [];
      this.joins := joins;
      this.conditions := conditions;
    }

    /** Appends one ORDER BY entry after the existing ones. */
    method AddOrderBy(sort: string, order: Direction)
      modifies this`orderBy
      ensures orderBy == old(orderBy) + [OrderBy(sort, order)]
    {
      orderBy := orderBy + [OrderBy(sort, order)];
    }
  }
}
