/** The values the zone tool passes around: zone records as assembled from a
    KML document, the rows `find_point` reports, and the two errors of the
    import loop that the model keeps (the ValueErrors of `float()` and of
    `Polygon()` are not modelled). Coordinates are kept as the text of each number. */
module Zones {

  datatype Option<T> = None | Some(value: T)

  /** The exceptions of the import loop the model keeps, as values. */
  datatype Error =
    | IndexOutOfRange   // `tds[i + 1]` past the last table cell (IndexError)
    | NotEnoughValues   // `lon, lat, *_ = c.split(",")` on a token without a comma (ValueError)

  datatype Result<T> = Ok(value: T) | Err(error: Error)

  /** A (longitude, latitude) pair, each number kept as its text. */
  datatype LonLat = LonLat(lon: string, lat: string)

  /** One row of the zone table: `polygon_id`, `square_number`, `sign_number`
      and `coordinates` (the shapely polygon built from them is not modelled). */
  datatype ZoneRecord = ZoneRecord(
    polygonId: nat,
    squareNumber: string,
    signNumber: string,
    coordinates: seq<LonLat>)

  /** One entry of `find_point`'s result. */
  datatype Match = Match(polygonId: nat, squareNumber: string, signNumber: string)

  /** The projection `find_point` applies to a kept row. */
  function MatchOf(z: ZoneRecord): Match {
    Match(z.polygonId, z.squareNumber, z.signNumber)
  }
}
