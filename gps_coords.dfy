/** GPSCoords.cpp: a fix (UTC time text, latitude and longitude in ten-thousandths of
    an arc-minute, altitude) with setters and getters, its conversion to degrees,
    minutes and seconds, the time text with colons, and the text reports sent by SMS. */
module GPSCoords {
  import opened Arduino
  import opened BPPCell
  import opened Fields

  // ---------------------------------------------------------------------------
  // getLatLonInDMS

  /** `abs` on a stored coordinate. */
  function Abs(v: int): (a: nat)
    ensures a == v || a == -v
  {
    if v < 0 then -v else v
  }

  /** Degrees, minutes and seconds of the magnitude of one coordinate. */
  datatype DMS = DMS(degs: nat, mins: nat, secs: real)

  /** The split of `getLatLonInDMS`: whole degrees, then whole minutes of what is left,
      then seconds of what is left after that. */
  function ToDMS(v: int): (d: DMS)
    ensures d.mins < MinutesPerDegree
    ensures 0.0 <= d.secs < SecondsPerMinute as real
  {
    var magnitude := Abs(v);
    var belowDegree := magnitude % UnitsPerDegree;
    var belowMinute := belowDegree % TenThousandthsPerMinute;
    DMS(magnitude / UnitsPerDegree, belowDegree / TenThousandthsPerMinute,
        (belowMinute * SecondsPerMinute) as real / TenThousandthsPerMinute as real)
  }

  /** The value, in stored units, of degrees, minutes and seconds. */
  function FromDMS(d: DMS): real
  {
    (d.degs * UnitsPerDegree + d.mins * TenThousandthsPerMinute) as real
      + d.secs * (TenThousandthsPerMinute as real / SecondsPerMinute as real)
  }

  /** The three parts add back up to the magnitude: nothing is lost, the seconds being
      exact here. */
  lemma {:induction false} DmsReconstructs(v: int)
    ensures FromDMS(ToDMS(v)) == Abs(v) as real
  {
    var m := Abs(v);
    var b := m % UnitsPerDegree;
    var c := b % TenThousandthsPerMinute;
    assert m == (m / UnitsPerDegree) * UnitsPerDegree + b;
    assert b == (b / TenThousandthsPerMinute) * TenThousandthsPerMinute + c;
    var secs := (c * SecondsPerMinute) as real / TenThousandthsPerMinute as real;
    assert secs * (TenThousandthsPerMinute as real / SecondsPerMinute as real) == c as real;
  }

  /** Two coordinates split alike exactly when their magnitudes agree; in particular a
      coordinate and its negation split alike. */
  lemma {:induction false} DmsDeterminesMagnitude(v: int, w: int)
    ensures ToDMS(v) == ToDMS(w) <==> Abs(v) == Abs(w)
  {
    DmsReconstructs(v);
    DmsReconstructs(w);
  }

  /** 28870380 ten-thousandths of a minute are 48 degrees, 7 minutes, 2.28 seconds. */
  lemma {:induction false} DmsKnownAnswer()
    ensures ToDMS(28870380) == DMS(48, 7, 2.28)
    ensures ToDMS(-28870380) == DMS(48, 7, 2.28)
  {
    assert 28870380 == 48 * UnitsPerDegree + 70380;
    assert 70380 == 7 * TenThousandthsPerMinute + 380;
  }

  /** The `DMSCoords` of a stored position: both axes split, and a hemisphere flag that
      holds for zero and positive values. */
  function DmsCoordsOf(lat: int, lon: int): DMSCoords
  {
    var la, lo := ToDMS(lat), ToDMS(lon);
    DMSCoords(la.degs, la.mins, la.secs, lo.degs, lo.mins, lo.secs, lat >= 0, lon >= 0)
  }

  /** The signed value, in stored units, one axis of a `DMSCoords` stands for. */
  function Signed(positive: bool, degs: int, mins: int, secs: real): real
  {
    var magnitude := (degs * UnitsPerDegree + mins * TenThousandthsPerMinute) as real
                     + secs * (TenThousandthsPerMinute as real / SecondsPerMinute as real);
    if positive then magnitude else -magnitude
  }

  /** The `DMSCoords` determine the stored position: read back with their hemisphere
      flags they give latitude and longitude exactly; zero counts as North and East. */
  lemma {:induction false} DmsCoordsRoundTrip(lat: int, lon: int)
    ensures var c := DmsCoordsOf(lat, lon);
            Signed(c.isNorth, c.latDegs, c.latMins, c.latSecs) == lat as real &&
            Signed(c.isEast, c.lonDegs, c.lonMins, c.lonSecs) == lon as real &&
            (c.isNorth <==> lat >= 0) && (c.isEast <==> lon >= 0)
  {
    DmsReconstructs(lat);
    DmsReconstructs(lon);
  }

  // ---------------------------------------------------------------------------
  // getFormattedTimeString

  /** `hhmmss.ss` becomes `hh:mm:ss.ss`: colons after the first two and the next two
      characters, each piece cut with `substring`. */
  function FormattedTime(t: string): (r: string)
  {
    Substring(t, 0, 2) + ":" + Substring(t, 2, 4) + ":" + SubstringFrom(t, 4)
  }

  /** The pieces are the first two characters, the next two and the rest, as far as the
      text reaches. */
  lemma {:induction false} FormattedTimeIs(t: string)
    ensures var a, m := Min(|t|, 2), Min(|t|, 4);
            FormattedTime(t) == t[..a] + ":" + t[a..m] + ":" + t[m..]
  {
    SubstringIs(t, 0, 2);
    SubstringIs(t, 2, 4);
    SubstringFromIs(t, 4);
  }

  /** The formatted time is two characters longer, has its colons at the cut points, and
      deleting them gives the time text back. */
  lemma {:induction false} FormattedTimeRoundTrip(t: string)
    ensures var r, a, m := FormattedTime(t), Min(|t|, 2), Min(|t|, 4);
            |r| == |t| + 2 && r[a] == ':' && r[m + 1] == ':' &&
            r[..a] + r[a + 1..m + 1] + r[m + 2..] == t
  {
    FormattedTimeIs(t);
    var r, a, m := FormattedTime(t), Min(|t|, 2), Min(|t|, 4);
    assert r[..a] == t[..a];
    assert r[a + 1..m + 1] == t[a..m];
    assert r[m + 2..] == t[m..];
    assert t[..a] + t[a..m] + t[m..] == t;
  }

  // ---------------------------------------------------------------------------
  // formatCoordsForText

  /** The degree sign the reports append as `char(0xB0)`. */
  const DegreeSign: char := 0xB0 as char

  /** How a `float` is printed: `String(float)`, two decimals. Not modelled; the
      reports take it as a parameter. */
  type FloatText = real -> string

  /** `dtostrf(value, width, precision, buffer)`. Not modelled; a parameter. */
  type FixedText = (real, int, int) -> string

  /** The time text with colons holds only characters of the time text and colons. */
  lemma {:induction false} FormattedTimeChars(t: string)
    ensures forall ch :: ch in FormattedTime(t) ==> ch in t || ch == ':'
  {
    FormattedTimeIs(t);
    var a, m := Min(|t|, 2), Min(|t|, 4);
    assert t == t[..a] + t[a..m] + t[m..];
  }

  /** One axis of the degree-minute-second layouts, `Lat: 48° 7' 2.28" N`. */
  function DmsAxisText(axis: string, degs: int, mins: int, secs: string, hemisphere: string): string
  {
    axis + IntToString(degs) + [DegreeSign] + " " + IntToString(mins) + "' " + secs + "\" " + hemisphere
  }

  /** One axis of the decimal-degree layout, `Lat: 48.117300°`. */
  function DecAxisText(axis: string, degrees: string): string
  {
    axis + degrees + [DegreeSign]
  }

  function NorthSouth(c: DMSCoords): string { if c.isNorth then "N" else "S" }
  function EastWest(c: DMSCoords): string { if c.isEast then "E" else "W" }

  /** A coordinate in decimal degrees as `dtostrf` is asked to print it: latitude in 9
      characters, longitude in 10, both with 6 decimals. */
  function DecLatText(lat: int, fixedText: FixedText): string
  {
    fixedText(lat as real / UnitsPerDegree as real, 9, 6)
  }

  function DecLonText(lon: int, fixedText: FixedText): string
  {
    fixedText(lon as real / UnitsPerDegree as real, 10, 6)
  }

  /** FORMAT_DMS: time, latitude, longitude and altitude, each on a line of its own. */
  function DmsText(time: string, c: DMSCoords, alt: real, floatText: FloatText): string
  {
    ("Time: " + FormattedTime(time) + " UTC\n")
    + DmsAxisText("Lat: ", c.latDegs, c.latMins, floatText(c.latSecs), NorthSouth(c)) + "\n"
    + DmsAxisText("Lon: ", c.lonDegs, c.lonMins, floatText(c.lonSecs), EastWest(c)) + "\n"
    + ("Alt: " + floatText(alt) + "m MSL\n")
  }

  /** FORMAT_DMS_ONELINE: the same four pieces run together without separators. */
  function DmsOneLineText(time: string, c: DMSCoords, alt: real, floatText: FloatText): string
  {
    ("Time: " + FormattedTime(time) + " UTC")
    + DmsAxisText("Lat: ", c.latDegs, c.latMins, floatText(c.latSecs), NorthSouth(c))
    + DmsAxisText("Lon: ", c.lonDegs, c.lonMins, floatText(c.lonSecs), EastWest(c))
    + ("Alt: " + floatText(alt) + "m MSL")
  }

  /** FORMAT_DEC_DEGS: four lines, the coordinates in decimal degrees. */
  function DecDegsText(time: string, lat: int, lon: int, alt: real,
                       floatText: FloatText, fixedText: FixedText): string
  {
    ("Time: " + FormattedTime(time) + " UTC \n")
    + DecAxisText("Lat: ", DecLatText(lat, fixedText)) + "\n"
    + DecAxisText("Lon: ", DecLonText(lon, fixedText)) + "\n"
    + ("Alt: " + floatText(alt) + "m MSL\n")
  }

  /** The fields of the FORMAT_DEC_DEGS_CSV report. */
  function DecDegsCsvFields(time: string, lat: int, lon: int, alt: real,
                            floatText: FloatText, fixedText: FixedText): seq<string>
  {
    [FormattedTime(time), DecLatText(lat, fixedText), DecLonText(lon, fixedText), floatText(alt)]
  }

  /** The minus sign FORMAT_DMS_CSV writes for a southern or western coordinate. */
  function MinusIf(negative: bool): string
  {
    if negative then "-" else ""
  }

  /** The fields of the FORMAT_DMS_CSV report as the source writes them: the minus sign
      of a southern latitude lands in front of the time, not in front of the degrees. */
  function DmsCsvFields(time: string, c: DMSCoords, alt: real, floatText: FloatText): seq<string>
  {
    [MinusIf(!c.isNorth) + FormattedTime(time),
     IntToString(c.latDegs), IntToString(c.latMins), floatText(c.latSecs),
     MinusIf(!c.isEast) + IntToString(c.lonDegs), IntToString(c.lonMins), floatText(c.lonSecs),
     floatText(alt)]
  }

  /** The fields FORMAT_DMS_CSV evidently means to write: each minus sign in front of
      the degrees of its own axis. */
  function DmsCsvFieldsSigned(time: string, c: DMSCoords, alt: real, floatText: FloatText): seq<string>
  {
    [FormattedTime(time),
     MinusIf(!c.isNorth) + IntToString(c.latDegs), IntToString(c.latMins), floatText(c.latSecs),
     MinusIf(!c.isEast) + IntToString(c.lonDegs), IntToString(c.lonMins), floatText(c.lonSecs),
     floatText(alt)]
  }

  /** The reports of `formatCoordsForText`, by format code; the empty text for a code
      the switch does not list. */
  function CoordsText(format: int, time: string, lat: int, lon: int, alt: real,
                      floatText: FloatText, fixedText: FixedText): (r: string)
    ensures (format < FormatDms || format > FormatDecDegsCsv) ==> r == ""
  {
    var c := DmsCoordsOf(lat, lon);
    if format == FormatDms then DmsText(time, c, alt, floatText)
    else if format == FormatDmsOneLine then DmsOneLineText(time, c, alt, floatText)
    else if format == FormatDecDegs then DecDegsText(time, lat, lon, alt, floatText, fixedText)
    else if format == FormatDecDegsCsv then Join(DecDegsCsvFields(time, lat, lon, alt, floatText, fixedText), ',')
    else if format == FormatDmsCsv then Join(DmsCsvFields(time, c, alt, floatText), ',')
    else ""
  }

  // ---------------------------------------------------------------------------
  // The class

  /** A fix as the tracker stores it. */
  class GPSCoords {
    var time: string
    var lat: int
    var lon: int
    var alt: real

    constructor(time: string, lat: int, lon: int, alt: real)
      ensures this.time == time && this.lat == lat && this.lon == lon && this.alt == alt
    {
      this.time := time;
      this.lat := lat;
      this.lon := lon;
      this.alt := alt;
    }

    function GetTime(): string reads this { time }
    function GetLat(): int reads this { lat }
    function GetLon(): int reads this { lon }
    function GetAlt(): real reads this { alt }

    method SetTime(time: string)
      modifies this
      ensures GetTime() == time
      ensures GetLat() == old(GetLat()) && GetLon() == old(GetLon()) && GetAlt() == old(GetAlt())
    {
      this.time := time;
    }

    method SetLat(lat: int)
      modifies this
      ensures GetLat() == lat
      ensures GetTime() == old(GetTime()) && GetLon() == old(GetLon()) && GetAlt() == old(GetAlt())
    {
      this.lat := lat;
    }

    method SetLon(lon: int)
      modifies this
      ensures GetLon() == lon
      ensures GetTime() == old(GetTime()) && GetLat() == old(GetLat()) && GetAlt() == old(GetAlt())
    {
      this.lon := lon;
    }

    method SetAlt(alt: real)
      modifies this
      ensures GetAlt() == alt
      ensures GetTime() == old(GetTime()) && GetLat() == old(GetLat()) && GetLon() == old(GetLon())
    {
      this.alt := alt;
    }

    /** `getLatLonInDMS`. */
    function LatLonInDMS(): DMSCoords reads this
    {
      DmsCoordsOf(lat, lon)
    }

    /** `getFormattedTimeString`. */
    function FormattedTimeString(): string reads this
    {
      FormattedTime(time)
    }

    /** `formatCoordsForText`: the report is built by appending piece after piece to
        a String that starts empty. */
    method FormatCoordsForText(format: int, floatText: FloatText, fixedText: FixedText) returns (r: string)
      ensures r == CoordsText(format, time, lat, lon, alt, floatText, fixedText)
    {
      if format == FormatDms {
        r := AppendDmsReport(time, LatLonInDMS(), alt, floatText);
      } else if format == FormatDmsOneLine {
        r := AppendDmsOneLineReport(time, LatLonInDMS(), alt, floatText);
      } else if format == FormatDecDegs {
        r := AppendDecDegsReport(time, lat, lon, alt, floatText, fixedText);
      } else if format == FormatDecDegsCsv {
        r := AppendDecDegsCsvReport(time, lat, lon, alt, floatText, fixedText);
      } else if format == FormatDmsCsv {
        r := AppendDmsCsvReport(time, LatLonInDMS(), alt, floatText);
      } else {
        r := "";
      }
    }
  }

  // The cases of `formatCoordsForText`, each appending its pieces to the String in the
  // order the source does, one statement per `+=`.

  /** FORMAT_DMS: one line each for time, latitude, longitude and altitude. */
  method AppendDmsReport(time: string, coords: DMSCoords, alt: real, floatText: FloatText)
    returns (r: string)
    ensures r == DmsText(time, coords, alt, floatText)
  {
    r := "";
    r := r + ("Time: " + FormattedTime(time) + " UTC\n");
    assert r == "Time: " + FormattedTime(time) + " UTC\n";
    r := AppendDmsAxis(r, "Lat: ", coords.latDegs, coords.latMins, floatText(coords.latSecs), NorthSouth(coords));
    r := r + "\n";
    r := AppendDmsAxis(r, "Lon: ", coords.lonDegs, coords.lonMins, floatText(coords.lonSecs), EastWest(coords));
    r := r + "\n";
    r := r + ("Alt: " + floatText(alt) + "m MSL\n");
  }

  /** FORMAT_DMS_ONELINE: the same pieces without the newlines. */
  method AppendDmsOneLineReport(time: string, coords: DMSCoords, alt: real, floatText: FloatText)
    returns (r: string)
    ensures r == DmsOneLineText(time, coords, alt, floatText)
  {
    r := "";
    r := r + ("Time: " + FormattedTime(time) + " UTC");
    assert r == "Time: " + FormattedTime(time) + " UTC";
    r := AppendDmsAxis(r, "Lat: ", coords.latDegs, coords.latMins, floatText(coords.latSecs), NorthSouth(coords));
    r := AppendDmsAxis(r, "Lon: ", coords.lonDegs, coords.lonMins, floatText(coords.lonSecs), EastWest(coords));
    r := r + ("Alt: " + floatText(alt) + "m MSL");
  }

  /** FORMAT_DEC_DEGS: the coordinates printed by `dtostrf`, one line each. */
  method AppendDecDegsReport(time: string, lat: int, lon: int, alt: real,
                             floatText: FloatText, fixedText: FixedText) returns (r: string)
    ensures r == DecDegsText(time, lat, lon, alt, floatText, fixedText)
  {
    var decLatString, decLonString := DecLatText(lat, fixedText), DecLonText(lon, fixedText);
    r := "";
    r := r + ("Time: " + FormattedTime(time) + " UTC \n");
    assert r == "Time: " + FormattedTime(time) + " UTC \n";
    r := AppendDecAxis(r, "Lat: ", decLatString);
    r := r + "\n";
    r := AppendDecAxis(r, "Lon: ", decLonString);
    r := r + "\n";
    ghost var before := r;
    r := r + "Alt: ";
    r := r + floatText(alt);
    r := r + "m MSL\n";
    Regroup3(before, "Alt: ", floatText(alt), "m MSL\n");
  }

  /** The appends of one axis of FORMAT_DEC_DEGS. */
  method AppendDecAxis(r0: string, axis: string, degrees: string) returns (r: string)
    ensures r == r0 + DecAxisText(axis, degrees)
  {
    r := r0;
    r := r + axis;
    r := r + degrees;
    r := r + [DegreeSign];
    Regroup3(r0, axis, degrees, [DegreeSign]);
  }

  /** FORMAT_DEC_DEGS_CSV: time, the two coordinates and the altitude, comma-separated. */
  method AppendDecDegsCsvReport(time: string, lat: int, lon: int, alt: real,
                                floatText: FloatText, fixedText: FixedText) returns (r: string)
    ensures r == Join(DecDegsCsvFields(time, lat, lon, alt, floatText, fixedText), ',')
  {
    var decLatString, decLonString := DecLatText(lat, fixedText), DecLonText(lon, fixedText);
    r := "";
    r := r + (FormattedTime(time) + ",");
    r := r + decLatString;
    r := r + ",";
    r := r + decLonString;
    r := r + ",";
    r := r + floatText(alt);
    JoinFour(FormattedTime(time), decLatString, decLonString, floatText(alt), ',');
  }

  /** FORMAT_DMS_CSV: a minus sign for the south and the west, then the fields. */
  method AppendDmsCsvReport(time: string, coords: DMSCoords, alt: real, floatText: FloatText)
    returns (r: string)
    ensures r == Join(DmsCsvFields(time, coords, alt, floatText), ',')
  {
    r := "";
    if !coords.isNorth {
      r := r + "-";
    }
    assert r == MinusIf(!coords.isNorth);
    r := r + FormattedTime(time);
    r := r + ",";
    r := r + IntToString(coords.latDegs);
    r := r + ",";
    r := r + IntToString(coords.latMins);
    r := r + ",";
    r := r + floatText(coords.latSecs);
    r := r + ",";
    ghost var before := r;
    if !coords.isEast {
      r := r + "-";
    }
    assert r == before + MinusIf(!coords.isEast);
    r := r + IntToString(coords.lonDegs);
    Regroup2(before, MinusIf(!coords.isEast), IntToString(coords.lonDegs));
    r := r + ",";
    r := r + IntToString(coords.lonMins);
    r := r + ",";
    r := r + floatText(coords.lonSecs);
    r := r + ",";
    r := r + floatText(alt);
    JoinEight(MinusIf(!coords.isNorth) + FormattedTime(time), IntToString(coords.latDegs),
              IntToString(coords.latMins), floatText(coords.latSecs),
              MinusIf(!coords.isEast) + IntToString(coords.lonDegs), IntToString(coords.lonMins),
              floatText(coords.lonSecs), floatText(alt), ',');
  }

  /** The appends of one axis of the degree-minute-second layouts, one statement per
      piece as `formatCoordsForText` writes them. */
  method AppendDmsAxis(r0: string, axis: string, degs: int, mins: int, secs: string, hemisphere: string)
    returns (r: string)
    ensures r == r0 + DmsAxisText(axis, degs, mins, secs, hemisphere)
  {
    r := r0;
    r := r + axis;
    r := r + IntToString(degs);
    r := r + [DegreeSign];
    r := r + " ";
    r := r + IntToString(mins);
    r := r + "' ";
    r := r + secs;
    r := r + "\" ";
    r := r + hemisphere;
    Regroup9(r0, axis, IntToString(degs), [DegreeSign], " ", IntToString(mins), "' ", secs, "\" ", hemisphere);
  }

  // ---------------------------------------------------------------------------
  // What the reports hold

  /** No piece of a report holds a character of `sep` the time text and the printed
      numbers lack. */
  lemma {:induction false} IntTextFree(n: int, sep: char)
    requires sep != '-' && !('0' <= sep <= '9')
    ensures sep !in IntToString(n)
  {
  }

  /** An axis of the degree-minute-second layouts holds `sep` only where its axis
      name, seconds or hemisphere text does. */
  lemma {:induction false} AxisTextFree(axis: string, degs: int, mins: int, secs: string, hemisphere: string, sep: char)
    requires sep !in axis && sep !in secs && sep !in hemisphere
    requires sep != '-' && !('0' <= sep <= '9') && sep != DegreeSign && sep !in "' \""
    ensures sep !in DmsAxisText(axis, degs, mins, secs, hemisphere)
  {
    IntTextFree(degs, sep);
    IntTextFree(mins, sep);
  }

  /** The FORMAT_DMS report is four lines: split at the newlines it gives the time,
      the two axes and the altitude, then the empty rest after the last newline. */
  lemma {:induction false} DmsTextLines(time: string, lat: int, lon: int, alt: real, floatText: FloatText)
    requires '\n' !in time && forall x :: '\n' !in floatText(x)
    ensures var c := DmsCoordsOf(lat, lon);
            Split(CoordsText(FormatDms, time, lat, lon, alt, floatText, (x, w, p) => ""), '\n')
            == ["Time: " + FormattedTime(time) + " UTC",
                DmsAxisText("Lat: ", c.latDegs, c.latMins, floatText(c.latSecs), NorthSouth(c)),
                DmsAxisText("Lon: ", c.lonDegs, c.lonMins, floatText(c.lonSecs), EastWest(c)),
                "Alt: " + floatText(alt) + "m MSL", ""]
  {
    DmsLines(time, DmsCoordsOf(lat, lon), alt, floatText);
  }

  lemma {:induction false} DmsLines(time: string, c: DMSCoords, alt: real, floatText: FloatText)
    requires '\n' !in time && forall x :: '\n' !in floatText(x)
    ensures Split(DmsText(time, c, alt, floatText), '\n')
            == ["Time: " + FormattedTime(time) + " UTC",
                DmsAxisText("Lat: ", c.latDegs, c.latMins, floatText(c.latSecs), NorthSouth(c)),
                DmsAxisText("Lon: ", c.lonDegs, c.lonMins, floatText(c.lonSecs), EastWest(c)),
                "Alt: " + floatText(alt) + "m MSL", ""]
  {
    FormattedTimeChars(time);
    AxisTextFree("Lat: ", c.latDegs, c.latMins, floatText(c.latSecs), NorthSouth(c), '\n');
    AxisTextFree("Lon: ", c.lonDegs, c.lonMins, floatText(c.lonSecs), EastWest(c), '\n');
    DmsTextLayout(FormattedTime(time), DmsAxisText("Lat: ", c.latDegs, c.latMins, floatText(c.latSecs), NorthSouth(c)),
                  DmsAxisText("Lon: ", c.lonDegs, c.lonMins, floatText(c.lonSecs), EastWest(c)), floatText(alt));
  }

  /** The FORMAT_DMS layout around its two axis lines. */
  lemma {:induction false} DmsTextLayout(ft: string, lat: string, lon: string, altText: string)
    requires '\n' !in ft && '\n' !in lat && '\n' !in lon && '\n' !in altText
    ensures Split(("Time: " + ft + " UTC\n") + lat + "\n" + lon + "\n" + ("Alt: " + altText + "m MSL\n"), '\n')
            == ["Time: " + ft + " UTC", lat, lon, "Alt: " + altText + "m MSL", ""]
  {
    assert '\n' !in "Time: " + ft + " UTC" && '\n' !in "Alt: " + altText + "m MSL";
    NewlineEnded("Time: ", ft, " UTC\n", " UTC");
    NewlineEnded("Alt: ", altText, "m MSL\n", "m MSL");
    Regroup2(("Time: " + ft + " UTC") + "\n" + lat + "\n" + lon + "\n", "Alt: " + altText + "m MSL", "\n");
    SplitLines("Time: " + ft + " UTC", lat, lon, "Alt: " + altText + "m MSL");
  }

  /** The FORMAT_DEC_DEGS report is four lines in the same way. */
  lemma {:induction false} DecDegsTextLines(time: string, lat: int, lon: int, alt: real, floatText: FloatText, fixedText: FixedText)
    requires '\n' !in time && forall x :: '\n' !in floatText(x)
    requires forall x, w, p :: '\n' !in fixedText(x, w, p)
    ensures Split(CoordsText(FormatDecDegs, time, lat, lon, alt, floatText, fixedText), '\n')
            == ["Time: " + FormattedTime(time) + " UTC ",
                DecAxisText("Lat: ", DecLatText(lat, fixedText)),
                DecAxisText("Lon: ", DecLonText(lon, fixedText)),
                "Alt: " + floatText(alt) + "m MSL", ""]
  {
    var ft := FormattedTime(time);
    FormattedTimeChars(time);
    var p0, p1 := "Time: " + ft + " UTC ", DecAxisText("Lat: ", DecLatText(lat, fixedText));
    var p2, p3 := DecAxisText("Lon: ", DecLonText(lon, fixedText)), "Alt: " + floatText(alt) + "m MSL";
    assert '\n' !in p0 && '\n' !in p1 && '\n' !in p2 && '\n' !in p3;
    NewlineEnded("Time: ", ft, " UTC \n", " UTC ");
    NewlineEnded("Alt: ", floatText(alt), "m MSL\n", "m MSL");
    Regroup2(p0 + "\n" + p1 + "\n" + p2 + "\n", p3, "\n");
    assert CoordsText(FormatDecDegs, time, lat, lon, alt, floatText, fixedText)
           == p0 + "\n" + p1 + "\n" + p2 + "\n" + p3 + "\n";
    SplitLines(p0, p1, p2, p3);
  }

  /** Four pieces without a newline, each followed by one, split into the four and the
      empty rest. */
  lemma {:induction false} SplitLines(a: string, b: string, c: string, d: string)
    requires '\n' !in a && '\n' !in b && '\n' !in c && '\n' !in d
    ensures Split(a + "\n" + b + "\n" + c + "\n" + d + "\n", '\n') == [a, b, c, d, ""]
  {
    JoinFive(a, b, c, d, "", '\n');
    assert a + "\n" + b + "\n" + c + "\n" + d + "\n" + "" == a + "\n" + b + "\n" + c + "\n" + d + "\n";
    SplitJoin([a, b, c, d, ""], '\n');
  }

  /** The FORMAT_DMS_ONELINE report is the four pieces of FORMAT_DMS without the
      newlines between them. */
  lemma {:induction false} DmsOneLineIsDmsPieces(time: string, lat: int, lon: int, alt: real, floatText: FloatText)
    requires '\n' !in time && forall x :: '\n' !in floatText(x)
    ensures var p := Split(CoordsText(FormatDms, time, lat, lon, alt, floatText, (x, w, p) => ""), '\n');
            |p| == 5 &&
            CoordsText(FormatDmsOneLine, time, lat, lon, alt, floatText, (x, w, p) => "") == p[0] + p[1] + p[2] + p[3]
  {
    DmsTextLines(time, lat, lon, alt, floatText);
  }

  /** The FORMAT_DEC_DEGS_CSV report splits at its commas into time, latitude,
      longitude and altitude. */
  lemma {:induction false} DecDegsCsvSplit(time: string, lat: int, lon: int, alt: real, floatText: FloatText, fixedText: FixedText)
    requires ',' !in time && forall x :: ',' !in floatText(x)
    requires forall x, w, p :: ',' !in fixedText(x, w, p)
    ensures Split(CoordsText(FormatDecDegsCsv, time, lat, lon, alt, floatText, fixedText), ',')
            == DecDegsCsvFields(time, lat, lon, alt, floatText, fixedText)
  {
    FormattedTimeChars(time);
    SplitJoin(DecDegsCsvFields(time, lat, lon, alt, floatText, fixedText), ',');
  }

  /** The FORMAT_DMS_CSV report splits at its commas into the eight fields it writes. */
  lemma {:induction false} DmsCsvSplit(time: string, lat: int, lon: int, alt: real, floatText: FloatText)
    requires ',' !in time && forall x :: ',' !in floatText(x)
    ensures Split(CoordsText(FormatDmsCsv, time, lat, lon, alt, floatText, (x, w, p) => ""), ',')
            == DmsCsvFields(time, DmsCoordsOf(lat, lon), alt, floatText)
  {
    var c := DmsCoordsOf(lat, lon);
    FormattedTimeChars(time);
    IntTextFree(c.latDegs, ',');
    IntTextFree(c.latMins, ',');
    IntTextFree(c.lonDegs, ',');
    IntTextFree(c.lonMins, ',');
    SplitJoin(DmsCsvFields(time, c, alt, floatText), ',');
  }

  /** As written, FORMAT_DMS_CSV puts the sign of a southern latitude on the time field:
      the latitude degrees never carry a minus sign, and the first field starts with one
      exactly when the latitude is south. */
  lemma {:induction false} DmsCsvLatSignOnTime(time: string, lat: int, lon: int, alt: real, floatText: FloatText)
    ensures var f := DmsCsvFields(time, DmsCoordsOf(lat, lon), alt, floatText);
            f[1][0] != '-' && (lat < 0 <==> |f[0]| > 0 && f[0][0] == '-' && f[0][1..] == FormattedTime(time))
  {
  }

  /** One degree south at midday: the report starts `-12:00:00,1,0,`. */
  lemma {:induction false} DmsCsvSouthExample(time: string, lat: int, floatText: FloatText)
    requires time == "120000" && lat == -600000
    ensures var f := DmsCsvFields(time, DmsCoordsOf(lat, 0), 0.0, floatText);
            f[0] == "-12:00:00" && f[1] == "1"
  {
    var c := DmsCoordsOf(lat, 0);
    assert c.latDegs == 1 && !c.isNorth;
    FormattedTimeIs(time);
    assert time[..2] == "12" && time[2..4] == "00" && time[4..] == "00";
    assert FormattedTime(time) == "12:00:00";
  }

  /** With each sign on its own axis, the time field is the time text and each degree
      field reads back the signed degrees. */
  lemma {:induction false} DmsCsvFieldsSignedCorrect(time: string, lat: int, lon: int, alt: real, floatText: FloatText)
    ensures var c := DmsCoordsOf(lat, lon);
            var f := DmsCsvFieldsSigned(time, c, alt, floatText);
            f[0] == FormattedTime(time) &&
            (f[1][0] == '-' <==> lat < 0) && (f[4][0] == '-' <==> lon < 0)
  {
  }

  // ---------------------------------------------------------------------------
  // Regrouping concatenations

  lemma {:induction false} Regroup2(r: string, a1: string, a2: string)
    ensures r + a1 + a2 == r + (a1 + a2)
  {
  }

  lemma {:induction false} Regroup3(r: string, a1: string, a2: string, a3: string)
    ensures r + a1 + a2 + a3 == r + (a1 + a2 + a3)
  {
  }

  lemma {:induction false} Regroup9(r: string, a1: string, a2: string, a3: string, a4: string, a5: string,
                 a6: string, a7: string, a8: string, a9: string)
    ensures r + a1 + a2 + a3 + a4 + a5 + a6 + a7 + a8 + a9
            == r + (a1 + a2 + a3 + a4 + a5 + a6 + a7 + a8 + a9)
  {
  }

  /** A piece ending in a newline is the piece without it, then the newline. */
  lemma {:induction false} NewlineEnded(a: string, b: string, tail: string, tailLine: string)
    requires tail == tailLine + "\n"
    ensures a + b + tail == a + b + tailLine + "\n"
  {
  }

  /** Joining one more field at the end. */
  lemma {:induction false} JoinSnoc(fs: seq<string>, x: string, sep: char)
    requires |fs| >= 1
    ensures Join(fs + [x], sep) == Join(fs, sep) + [sep] + x
  {
    if |fs| == 1 {
      assert (fs + [x])[1..] == [x];
    } else {
      assert (fs + [x])[1..] == fs[1..] + [x];
      JoinSnoc(fs[1..], x, sep);
      Regroup3(fs[0] + [sep], Join(fs[1..], sep), [sep], x);
    }
  }

  /** Four texts joined with a separator. */
  lemma {:induction false} JoinFour(a: string, b: string, c: string, d: string, sep: char)
    ensures Join([a, b, c, d], sep) == a + [sep] + b + [sep] + c + [sep] + d
  {
    JoinSnoc([a], b, sep);
    assert [a] + [b] == [a, b];
    JoinSnoc([a, b], c, sep);
    assert [a, b] + [c] == [a, b, c];
    JoinSnoc([a, b, c], d, sep);
    assert [a, b, c] + [d] == [a, b, c, d];
  }

  /** Five texts joined with a separator. */
  lemma {:induction false} JoinFive(a: string, b: string, c: string, d: string, e: string, sep: char)
    ensures Join([a, b, c, d, e], sep) == a + [sep] + b + [sep] + c + [sep] + d + [sep] + e
  {
    JoinFour(a, b, c, d, sep);
    JoinSnoc([a, b, c, d], e, sep);
    assert [a, b, c, d] + [e] == [a, b, c, d, e];
  }

  /** Eight texts joined with a separator. */
  lemma {:induction false} JoinEight(a: string, b: string, c: string, d: string, e: string, f: string, g: string, h: string, sep: char)
    ensures Join([a, b, c, d, e, f, g, h], sep)
            == a + [sep] + b + [sep] + c + [sep] + d + [sep] + e + [sep] + f + [sep] + g + [sep] + h
  {
    JoinFive(a, b, c, d, e, sep);
    JoinSnoc([a, b, c, d, e], f, sep);
    assert [a, b, c, d, e] + [f] == [a, b, c, d, e, f];
    JoinSnoc([a, b, c, d, e, f], g, sep);
    assert [a, b, c, d, e, f] + [g] == [a, b, c, d, e, f, g];
    JoinSnoc([a, b, c, d, e, f, g], h, sep);
    assert [a, b, c, d, e, f, g] + [h] == [a, b, c, d, e, f, g, h];
  }
}
