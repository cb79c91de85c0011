# Content-query clause model (eZ Platform kernel)

A Dafny model of three pieces of the content-query clause model of the eZ Platform kernel:

- **MapLocationDistance** is a sort clause that orders content by distance from a point. Its constructor fixes the sort target `maplocation_distance`. The direction defaults to ascending. A `MapLocationTarget` carries the latitude, the longitude and the content type and field identifiers. The clause also holds a mutable nested table of custom fields (content type identifier → field definition identifier → custom field name). `setCustomField` writes that table and `getCustomField` reads it.
  The model is the class `SortClauses.MapLocationDistance`. The table is a value of type `CustomFields.Fields`, and its meaning is a map keyed by the (type, field) pair (`CustomFields.View`).
- **NameSortClauseQueryBuilder** is the legacy-storage sort clause query builder for the `ContentName` filtering sort clause. `accepts` tests the clause's class. `buildQuery` appends `('content.name', direction)` to the caller's query builder.
  The model is the module `NameSortClauseQueryBuilder`. The builder is the class `Filter.FilteringQueryBuilder`, which holds its ORDER BY entries, joins and conditions as sequences.
- **AbstractFieldStatsAggregation** is a field statistics aggregation. Its constructor stores the aggregation name and the content type and field definition identifiers.
  The model is the datatype `FieldAggregation.AbstractFieldStatsAggregation` and its constructor function.

Neither constructor validates anything: both accept every string, empty ones included.

## Model

| member | source | states |
|---|---|---|
| `SortClauses.MapLocationDistance.constructor` | eZ/Publish/API/Repository/Values/Content/Query/SortClause/MapLocationDistance.php:37-54 | the sort target is `maplocation_distance`; the direction is the one given, ascending when none is given; the target carries latitude, longitude, type and field identifiers unchanged; no custom field is set for any pair |
| `SortClauses.MapLocationDistance.SetCustomField` | eZ/Publish/API/Repository/Values/Content/Query/SortClause/MapLocationDistance.php:65-68 | the nested table becomes the old one with `[type][field]` set; its meaning is the old overrides with exactly the pair (type, field) set to the new value, every other pair unchanged; the table stays well formed |
| `SortClauses.MapLocationDistance.GetCustomField` | eZ/Publish/API/Repository/Values/Content/Query/SortClause/MapLocationDistance.php:80-88 | the nested `isset` tests give the override recorded for the pair, and null exactly when the pair has none; it is total (no missing key makes it fail) and changes nothing |
| `CustomFields.Store` | eZ/Publish/API/Repository/Values/Content/Query/SortClause/MapLocationDistance.php:67 | the nested write keeps the table well formed (no empty inner table) and adds the type to the keys |
| `CustomFields.ViewMembership` | eZ/Publish/API/Repository/Values/Content/Query/SortClause/MapLocationDistance.php:82-87 | a pair has an override exactly when the type is set and the field is set under it, and the override is the nested entry |
| `CustomFields.StoreAt` | eZ/Publish/API/Repository/Values/Content/Query/SortClause/MapLocationDistance.php:65-87 | after a write, the written pair reads back the written value and every other pair reads back what it read before |
| `CustomFields.StoreUpdatesView` | eZ/Publish/API/Repository/Values/Content/Query/SortClause/MapLocationDistance.php:67 | a write sets its own pair and leaves every other pair unchanged, other fields of the same type included |
| `CustomFields.StoreOverwrites` | eZ/Publish/API/Repository/Values/Content/Query/SortClause/MapLocationDistance.php:65-67 | a second write to the same pair gives the same table as the second write alone (last write wins) |
| `CustomFields.ViewDeterminesFields` | eZ/Publish/API/Repository/Values/Content/Query/SortClause/MapLocationDistance.php:21-26 | two well-formed nested tables with the same pair-keyed overrides are equal, so the nested array holds nothing beyond its overrides |
| `CustomFields.ReplayLastWriteWins` | eZ/Publish/API/Repository/Values/Content/Query/SortClause/MapLocationDistance.php:65-88 | after any sequence of writes, a pair holds the value of its last write, or what it held before when no write named it |
| `CustomFields.FreshTableLastWriteWins` | eZ/Publish/API/Repository/Values/Content/Query/SortClause/MapLocationDistance.php:26-88 | starting from a fresh clause's empty table, a pair never written reads as null and a written pair reads as its last written value |
| `Filter.FilteringQueryBuilder.AddOrderBy` | eZ/Publish/Core/Persistence/Legacy/Filter/SortClauseQueryBuilder/Content/NameSortClauseQueryBuilder.php:28 | one ORDER BY entry is appended after the existing ones, and joins and conditions are untouched |
| `NameSortClauseQueryBuilder.Accepts` | eZ/Publish/Core/Persistence/Legacy/Filter/SortClauseQueryBuilder/Content/NameSortClauseQueryBuilder.php:18-21 | definition, no proof claimed: the `instanceof ContentName` test on the clause's class, total over every filtering sort clause |
| `NameSortClauseQueryBuilder.BuildQuery` | eZ/Publish/Core/Persistence/Legacy/Filter/SortClauseQueryBuilder/Content/NameSortClauseQueryBuilder.php:23-29 | the ORDER BY list grows by exactly one entry at its end, on `content.name` with the clause's direction unchanged; joins and conditions are untouched; the clause, a value, cannot change |
| `FieldAggregation.NewFieldStatsAggregation` | eZ/Publish/API/Repository/Values/Content/Query/Aggregation/Field/AbstractFieldStatsAggregation.php:18-27 | for any three strings, empty ones included, the aggregation's name, content type identifier and field definition identifier are the arguments unchanged |

## Left out

- The legacy-storage handler that turns a MapLocationDistance clause into its distance SQL is not part of this model, and neither are the other sort-clause query builders.
- The parent classes `SortClause` and `AbstractStatsAggregation` and the trait `FieldAggregationTrait` are not part of this model. Only the fields that the modelled constructors set are kept. `MapLocationTarget` is kept as a record of its four constructor arguments. Any check the `SortClause` constructor may make on the direction is not modelled: the direction is kept as the string the caller passed.
- The `Query` class is not part of this model. `Query::SORT_ASC` is taken as the string `ascending`, and no property depends on its exact value.
- Latitude and longitude are PHP floats. They are modelled as `real` because they are only stored and never computed on. The float values NAN, INF, -INF and -0.0 have no `real` counterpart and are excluded.
- The concrete subclasses of `AbstractFieldStatsAggregation` are not part of this model. They differ only in their class, which nothing modelled inspects.
- The internals of the Doctrine query builder are not part of this model. Only the append effect of `addOrderBy` is kept, together with the joins and conditions, which `NameSortClauseQueryBuilder::buildQuery` leaves alone.
- PHP turns integer-like string array keys into integers. That conversion is injective, so it changes no lookup result and is not modelled.
- Filtering sort clause classes other than ContentName are one variant, named by class. A subclass of ContentName would pass `instanceof`, but no such class is modelled.
- Aliasing: `getCustomField` is a function that reads the clause. The model does not cover the clause being changed while a sort clause query builder reads it.
