/**
 * The MapLocationDistance sort clause: orders content by the distance between
 * a map-location field and a given point, optionally reading the distance from
 * a custom field per (content type, field definition).
 */
module SortClauses {
  import opened Wrappers
  import opened Query
  import opened CustomFields

  /** The sort target name every MapLocationDistance clause carries. */
  const MapLocationDistanceTarget: string := "maplocation_distance"

  /**
   * The point and field the distance is measured for. Latitude and longitude
   * are stored, never computed on, so they are kept as plain numbers.
   */
  datatype MapLocationTarget = MapLocationTarget(
    latitude: real,
    longitude: real,
    typeIdentifier: string,
    fieldIdentifier: string)

  class MapLocationDistance {
    /** Set at construction and never changed by this class. */
    const sortTarget: string
    const direction: Direction
    const targetData: MapLocationTarget

    /** Custom fields to sort by instead of the default field. */
    var customFields: Fields

    ghost predicate Valid()
      reads this
    {
      WellFormed(customFields)
    }

    /** The custom-field overrides the clause currently holds, keyed by (type, field). */
    ghost function CustomFieldOverrides(): Overrides
      reads this
    {
      View(customFields)
    }

    /** No argument is validated or transformed; the direction defaults to ascending. */
    constructor (
      typeIdentifier: string,
      fieldIdentifier: string,
      latitude: real,
      longitude: real,
      sortDirection: Direction := SortAsc)
      ensures Valid()
      ensures sortTarget == MapLocationDistanceTarget
      ensures direction == sortDirection
      ensures targetData.latitude == latitude && targetData.longitude == longitude
      ensures targetData.typeIdentifier == typeIdentifier && targetData.fieldIdentifier == fieldIdentifier
      ensures customFields == map[] && CustomFieldOverrides() == map[]
    {
      sortTarget := MapLocationDistanceTarget;
      direction := sortDirection;
      targetData := MapLocationTarget(latitude, longitude, typeIdentifier, fieldIdentifier);
      customFields := map[];
    }

    /** Sets the custom field to sort by for one field of one content type. */
    method SetCustomField(typeIdentifier: string, fieldIdentifier: string, customField: string)
      requires Valid()
      modifies this`customFields
      ensures Valid()
      ensures customFields == Store(old(customFields), typeIdentifier, fieldIdentifier, customField)
      ensures CustomFieldOverrides() == old(CustomFieldOverrides())[(typeIdentifier, fieldIdentifier) := customField]
    {
      StoreUpdatesView(customFields, typeIdentifier, fieldIdentifier, customField);
      customFields := Store(customFields, typeIdentifier, fieldIdentifier, customField);
    }

    /** The custom field set for the pair, or `None` when the type or the field has none. */
    function GetCustomField(typeIdentifier: string, fieldIdentifier: string): (r: Option<string>)
      reads this
      ensures r == OverrideOf(CustomFieldOverrides(), typeIdentifier, fieldIdentifier)
    {
      ViewMembership(customFields, typeIdentifier, fieldIdentifier);
      if typeIdentifier !in customFields || fieldIdentifier !in customFields[typeIdentifier] then None
      else Some(customFields[typeIdentifier][fieldIdentifier])
    }
  }

  /** A caller's view of the clause: defaults and absence on a fresh clause. */
  method FreshClauseClient(latitude: real, longitude: real)
  {
    var clause := new MapLocationDistance("article", "location", latitude, longitude);
    assert clause.direction == SortAsc && clause.sortTarget == "maplocation_distance";
    assert clause.GetCustomField("article", "location") == None;
  }

  /** A caller's view of the clause: read-after-write, last write wins, other fields of the type untouched. */
  method CustomFieldClient(clause: MapLocationDistance)
    requires clause.Valid()
    modifies clause
  {
    assert "address" != "location" by { assert "address"[0] != "location"[0]; }
    ghost var before := clause.GetCustomField("article", "address");

    clause.SetCustomField("article", "location", "geo_first");
    assert clause.GetCustomField("article", "location") == Some("geo_first");
    assert clause.GetCustomField("article", "address") == before;

    clause.SetCustomField("article", "location", "geo_second");
    assert clause.GetCustomField("article", "location") == Some("geo_second");
    assert clause.GetCustomField("article", "address") == before;
  }
}
