/** What the extractor needs from NMEA 0183 sentences. Parsing and the epoch
    conversion belong to other libraries; they reach the model as the fields of
    a `Collaborators` value, so that every result holds for every parser. */
module Nmea {
  import opened Wrappers
  import opened Text

  /** A calendar date, as carried by an RMC sentence. */
  datatype Date = Date(year: int, month: int, day: int)

  /** A time of day, as carried by a GGA sentence. */
  datatype TimeOfDay = TimeOfDay(hour: int, minute: int, second: int, microsecond: int)

  /** The fields a GGA sentence supplies for one point. */
  datatype Fix = Fix(timestamp: TimeOfDay, latitude: real, longitude: real, altitude: Option<real>)

  /** The foreign operations, each returning None where Python raises:
      - rmcDate(l): `pynmea2.parse(l).datetime.date()`;
      - ggaFix(l): `pynmea2.parse(l)` read for timestamp, latitude, longitude, altitude;
      - asUnixTime(d, t): `geo.as_unix_time(datetime.combine(d, t))`. */
  datatype Collaborators = Collaborators(
    rmcDate: string -> Option<Date>,
    ggaFix: string -> Option<Fix>,
    asUnixTime: (Date, TimeOfDay) -> real)

  /** A line is treated as date-bearing when this occurs anywhere in it. */
  const RmcMarker: string := "GNRMC"

  /** A line is treated as position-bearing when this occurs anywhere in it. */
  const GgaMarker: string := "$GNGGA"

  /** The RMC test of `get_lat_lon_time_from_nmea`: the marker occurs somewhere in the line. */
  predicate IsRmc(l: string)
    ensures IsRmc(l) <==> exists i :: OccursAt(RmcMarker, l, i)
  {
    Contains(l, RmcMarker)
  }

  /** The GGA test of `get_lat_lon_time_from_nmea`: the marker occurs somewhere in the line. */
  predicate IsGga(l: string)
    ensures IsGga(l) <==> exists i :: OccursAt(GgaMarker, l, i)
  {
    Contains(l, GgaMarker)
  }
}
