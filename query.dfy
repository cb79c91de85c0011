/**
 * Constants of the content query (eZ\Publish\API\Repository\Values\Content\Query)
 * that the clause model uses: the two sort directions.
 */
module Query {

  /** A sort direction travels through the clause model as the plain string the caller chose. */
  type Direction = string

  const SortAsc: Direction := "ascending"
  const SortDesc: Direction := "descending"
}
