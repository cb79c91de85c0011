/** Translates the ContentName filtering sort clause into an ORDER BY on the content name. */
module NameSortClauseQueryBuilder {
  import opened Filter

  /** The column the content name is sorted by, whatever the clause holds. */
  const NameColumn: string := "content.name"

  /** The `instanceof ContentName` test: true for ContentName clauses, false for every other class. */
  predicate Accepts(sortClause: FilteringSortClause)
  {
    sortClause.kind == ContentName
  }

  /**
   * Appends one ORDER BY entry on the content name, in the clause's direction,
   * after the builder's existing entries; joins and conditions stay as they were.
   */
  method BuildQuery(queryBuilder: FilteringQueryBuilder, sortClause: FilteringSortClause)
    modifies queryBuilder`orderBy
    ensures queryBuilder.orderBy == old(queryBuilder.orderBy) + [OrderBy(NameColumn, sortClause.direction)]
    ensures queryBuilder.joins == old(queryBuilder.joins)
    ensures queryBuilder.conditions == old(queryBuilder.conditions)
  {
    queryBuilder.AddOrderBy(NameColumn, sortClause.direction);
  }

  /** A caller's view: a descending name sort on a fresh builder yields one entry and no joins. */
  method NameSortClient()
  {
    var queryBuilder := new FilteringQueryBuilder([], []);
    var sortClause := FilteringSortClause(ContentName, "content_name", Query.SortDesc);
    assert Accepts(sortClause);
    BuildQuery(queryBuilder, sortClause);
    assert queryBuilder.orderBy == [OrderBy("content.name", Query.SortDesc)];
    assert queryBuilder.joins == [];
  }
}
