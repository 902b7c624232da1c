/** BPPCell.h: the types and constants the tracker's classes share. Latitude and
    longitude are whole numbers of ten-thousandths of an arc-minute; with 60 minutes to
    the degree that is 600000 units per degree. */
module BPPCell {

  const MinutesPerDegree := 60
  const TenThousandthsPerMinute := 10000
  const SecondsPerMinute := 60

  /** Units of the stored coordinates in one degree. */
  const UnitsPerDegree := MinutesPerDegree * TenThousandthsPerMinute

  /** The layouts `formatCoordsForText` knows. */
  const FormatDms := 1
  const FormatDmsOneLine := 2
  const FormatDmsCsv := 3
  const FormatDecDegs := 4
  const FormatDecDegsCsv := 5

  /** A position in degrees, minutes and seconds: whole degrees and minutes of each
      axis, fractional seconds (a `float` in the source, exact here), and one hemisphere
      flag per axis. */
  datatype DMSCoords = DMSCoords(
    latDegs: int, latMins: int, latSecs: real,
    lonDegs: int, lonMins: int, lonSecs: real,
    isNorth: bool, isEast: bool)
}
