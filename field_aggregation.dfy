/** Field statistics aggregations: a named statistic over one field of one content type. */
module FieldAggregation {

  /**
   * The state an AbstractFieldStatsAggregation holds: the aggregation name kept
   * by the parent stats aggregation, and the two identifiers of the field.
   */
  datatype AbstractFieldStatsAggregation = AbstractFieldStatsAggregation(
    name: string,
    contentTypeIdentifier: string,
    fieldDefinitionIdentifier: string)

  /**
   * The constructor: total over all strings (empty ones included), it stores each
   * argument unchanged in its own field.
   */
  function NewFieldStatsAggregation(
    name: string,
    contentTypeIdentifier: string,
    fieldDefinitionIdentifier: string): (a: AbstractFieldStatsAggregation)
    ensures a.name == name
    ensures a.contentTypeIdentifier == contentTypeIdentifier
    ensures a.fieldDefinitionIdentifier == fieldDefinitionIdentifier
  {
    AbstractFieldStatsAggregation(name, contentTypeIdentifier, fieldDefinitionIdentifier)
  }
}
