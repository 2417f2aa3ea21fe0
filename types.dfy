/** The records shared by the whole application: one GPS sample and one
    finalised trail, as the storage layer persists them. */
module Types {

  /** A value that may be missing (`T | null` or an optional property). */
  datatype Option<+T> = None | Some(value: T)

  /** One location fix: latitude and longitude in degrees, timestamp in
      milliseconds since the epoch (the value of `Date.now()` when the fix
      was delivered). */
  datatype GeoPoint = GeoPoint(lat: real, lng: real, timestamp: int)

  /** A recorded trail. `distance` is optional in the record type: trails
      created by the recorder always carry it, trails read back from storage
      may not. */
  datatype Trail = Trail(
    id: string,
    name: string,
    startTime: int,
    endTime: int,
    path: seq<GeoPoint>,
    distance: Option<real>)
}
