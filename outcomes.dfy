/** Result types shared by the model of the edge-distance script. */
module Outcomes {

  datatype Option<+T> = None | Some(value: T) {
    function GetOr(default: T): T
    {
      match this
      case Some(v) => v
      case None => default
    }
  }

  /** Every way the script stops with an uncaught exception. None of them is
      handled per edge: each one ends the whole run. */
  datatype Fault =
    | NoCoordinateText     // `line.text.strip()` on an empty coordinates element (AttributeError)
    | NoCoordinates        // `coords[0]` on an empty coordinate list (IndexError)
    | MissingLongitude     // `origin[1]` or `dest[1]` on a 1-tuple (IndexError)
    | ConnectionFailed     // `requests.get` raised
    | HttpStatus(code: int) // `raise_for_status` on a 4xx or 5xx reply
    | NoRouteLeg           // `resp.json()['routes'][0]['legs'][0]` missing
    | NoNameElement        // `pm.find('kml:name', ns)` is None (AttributeError)
    | NoLegField           // `leg['distance']` or `leg['duration']` missing (KeyError)
    | NoDistanceColumn     // `df['distance_m']` on a DataFrame built from no rows (KeyError)

  datatype Result<+T> = Ok(value: T) | Err(fault: Fault)
}
