/** NMEAParser.cpp: reading a fix out of an NMEA 0183 GGA sentence ("Global Positioning
    System Fix Data"), whose fields are separated by commas: UTC time, latitude as
    `ddmm.mmmm`, N or S, longitude as `dddmm.mmmm`, E or W, fix quality, satellites,
    HDOP, altitude above mean sea level, and so on. Coordinates become whole numbers of
    ten-thousandths of an arc-minute. Also the plain byte sum `calcChecksum` and the
    class's own copy of the UBX `appendChecksum`. */
module NMEAParser {
  import opened Arduino
  import opened BPPCell
  import opened Fields
  import GPSCoords
  import UbxChecksum

  /** The commas `parseCoords` looks for: a GGA sentence has fourteen. */
  const CommaCount := 14

  // ---------------------------------------------------------------------------
  // parseLatFromGGA, parseLonFromGGA

  /** The value `parseLatFromGGA` and `parseLonFromGGA` return from the parts of a
      field: `degrees * 60` is an `int` product, cut to 16 bits; the rest is `long`
      arithmetic, and the sign comes from a multiplier of 1 or -1. */
  function AxisValue(degrees: int, minutes: int, decUnits: int, positive: bool): int
  {
    var multiplier := if positive then 1 else -1;
    multiplier * (Int16(degrees * MinutesPerDegree) * TenThousandthsPerMinute
                  + minutes * TenThousandthsPerMinute + decUnits)
  }

  /** One coordinate field: `degreeDigits` characters of degrees, two of whole minutes,
      then the decimal minutes. The degrees and minutes are `toInt` results stored in
      `int` variables; read from at most three characters they lie within -99 and 999,
      so the 16-bit `int` holds them unchanged. The decimal minutes are scaled by 10000
      and cast to `long`, which truncates. */
  function ParseAxis(s: string, degreeDigits: nat, positive: bool): int
  {
    var degrees := ToLong(Substring(s, 0, degreeDigits));
    var minutes := ToLong(Substring(s, degreeDigits, degreeDigits + 2));
    var decMinutes := ToReal(SubstringFrom(s, degreeDigits + 2));
    AxisValue(degrees, minutes, TruncateToLong(decMinutes * TenThousandthsPerMinute as real), positive)
  }

  /** `parseLatFromGGA`: two degree digits. */
  function ParseLatFromGGA(latString: string, isNorth: bool): int
  {
    ParseAxis(latString, 2, isNorth)
  }

  /** `parseLonFromGGA`: three degree digits. */
  function ParseLonFromGGA(lonString: string, isEast: bool): int
  {
    ParseAxis(lonString, 3, isEast)
  }

  /** A coordinate field as the sentence writes it: the degree digits, two minute
      digits, a point and the decimal digits of the
      minutes. */
  predicate WellFormedAxis(s: string, degreeDigits: nat)
  {
    degreeDigits + 3 <= |s| && AllDigits(s, 0, degreeDigits + 2) && s[degreeDigits + 2] == '.'
    && AllDigits(s, degreeDigits + 3, |s|)
  }

  /** The unsigned value a well-formed field stands for: degrees, whole minutes, and the
      decimal minutes scaled by 10000 and truncated. */
  function AxisUnits(s: string, degreeDigits: nat): int
    requires WellFormedAxis(s, degreeDigits)
  {
    var k := degreeDigits;
    AxisValue(NumeralIn(s, 0, k, 10), NumeralIn(s, k, k + 2, 10),
              NumeralIn(s, k + 3, |s|, 10) * TenThousandthsPerMinute / Pow10(|s| - k - 3), true)
  }

  /** A well-formed field parses to its value, positive for the N or E hemisphere and
      negative otherwise; the decimal minutes are truncated, not rounded. */
  lemma {:induction false} ParseAxisWellFormed(s: string, degreeDigits: nat, positive: bool)
    requires WellFormedAxis(s, degreeDigits)
    ensures ParseAxis(s, degreeDigits, positive)
            == (if positive then AxisUnits(s, degreeDigits) else -AxisUnits(s, degreeDigits))
  {
    var k := degreeDigits;
    var f := NumeralIn(s, k + 3, |s|, 10) * TenThousandthsPerMinute / Pow10(|s| - k - 3);
    AxisFieldValues(s, k);
    ParseAxisOfParts(s, k, positive, NumeralIn(s, 0, k, 10), NumeralIn(s, k, k + 2, 10), f);
    AxisValueSign(NumeralIn(s, 0, k, 10), NumeralIn(s, k, k + 2, 10), f);
  }

  /** The parse of a field whose parts read as the given values. */
  lemma {:induction false} ParseAxisOfParts(s: string, k: nat, positive: bool, degrees: int, minutes: int, decUnits: int)
    requires ToLong(Substring(s, 0, k)) == degrees && ToLong(Substring(s, k, k + 2)) == minutes
    requires TruncateToLong(ToReal(SubstringFrom(s, k + 2)) * TenThousandthsPerMinute as real) == decUnits
    ensures ParseAxis(s, k, positive) == AxisValue(degrees, minutes, decUnits, positive)
  {
  }

  /** The three parts of a well-formed field read as the numerals they spell. */
  lemma {:induction false} AxisFieldValues(s: string, k: nat)
    requires WellFormedAxis(s, k)
    ensures ToLong(Substring(s, 0, k)) == NumeralIn(s, 0, k, 10)
    ensures ToLong(Substring(s, k, k + 2)) == NumeralIn(s, k, k + 2, 10)
    ensures TruncateToLong(ToReal(SubstringFrom(s, k + 2)) * TenThousandthsPerMinute as real)
            == NumeralIn(s, k + 3, |s|, 10) * TenThousandthsPerMinute / Pow10(|s| - k - 3)
  {
    AxisDigitValues(s, k);
    AxisFractionValue(s, k);
  }

  /** The degree and minute slices of a well-formed field read as their digits. */
  lemma {:induction false} AxisDigitValues(s: string, k: nat)
    requires WellFormedAxis(s, k)
    ensures ToLong(Substring(s, 0, k)) == NumeralIn(s, 0, k, 10)
    ensures ToLong(Substring(s, k, k + 2)) == NumeralIn(s, k, k + 2, 10)
  {
    DigitFieldValue(s, 0, k);
    DigitFieldValue(s, k, k + 2);
  }

  /** The decimal minutes of a well-formed field, scaled and truncated. */
  lemma {:induction false} AxisFractionValue(s: string, k: nat)
    requires WellFormedAxis(s, k)
    ensures TruncateToLong(ToReal(SubstringFrom(s, k + 2)) * TenThousandthsPerMinute as real)
            == NumeralIn(s, k + 3, |s|, 10) * TenThousandthsPerMinute / Pow10(|s| - k - 3)
  {
    FractionFieldValue(s, k + 2, TenThousandthsPerMinute);
  }

  /** The multiplier only sets the sign. */
  lemma {:induction false} AxisValueSign(degrees: int, minutes: int, decUnits: int)
    ensures AxisValue(degrees, minutes, decUnits, false) == -AxisValue(degrees, minutes, decUnits, true)
  {
  }

  /** The hemisphere only sets the sign: the two parses of one field are opposite. */
  lemma {:induction false} ParseAxisSign(s: string, degreeDigits: nat)
    ensures ParseAxis(s, degreeDigits, false) == -ParseAxis(s, degreeDigits, true)
  {
  }

  /** The field `4807.038` is 48 degrees 7.038 minutes: 28870380 ten-thousandths of a
      minute. */
  lemma {:induction false} LatKnownUnits(lat: string)
    requires lat == "4807.038"
    ensures WellFormedAxis(lat, 2) && AxisUnits(lat, 2) == 28870380
  {
    assert NumeralIn(lat, 0, 1, 10) == 4 && NumeralIn(lat, 0, 2, 10) == 48;
    assert NumeralIn(lat, 2, 3, 10) == 0 && NumeralIn(lat, 2, 4, 10) == 7;
    assert NumeralIn(lat, 5, 6, 10) == 0 && NumeralIn(lat, 5, 7, 10) == 3 && NumeralIn(lat, 5, 8, 10) == 38;
    assert Pow10(3) == 1000;
  }

  /** `4807.038` with N parses to 28870380, and with S to its opposite. */
  lemma {:induction false} ParseLatKnownAnswer(lat: string)
    requires lat == "4807.038"
    ensures ParseLatFromGGA(lat, true) == 28870380 && ParseLatFromGGA(lat, false) == -28870380
  {
    LatKnownUnits(lat);
    ParseAxisWellFormed(lat, 2, true);
    ParseAxisWellFormed(lat, 2, false);
  }

  /** The field `01131.000` is 11 degrees 31 minutes: 6910000 ten-thousandths of a
      minute. */
  lemma {:induction false} LonKnownUnits(lon: string)
    requires lon == "01131.000"
    ensures WellFormedAxis(lon, 3) && AxisUnits(lon, 3) == 6910000
  {
    assert NumeralIn(lon, 0, 1, 10) == 0 && NumeralIn(lon, 0, 2, 10) == 1 && NumeralIn(lon, 0, 3, 10) == 11;
    assert NumeralIn(lon, 3, 4, 10) == 3 && NumeralIn(lon, 3, 5, 10) == 31;
    assert NumeralIn(lon, 6, 7, 10) == 0 && NumeralIn(lon, 6, 8, 10) == 0 && NumeralIn(lon, 6, 9, 10) == 0;
  }

  /** `01131.000` with E parses to 6910000, and with W to its opposite. */
  lemma {:induction false} ParseLonKnownAnswer(lon: string)
    requires lon == "01131.000"
    ensures ParseLonFromGGA(lon, true) == 6910000 && ParseLonFromGGA(lon, false) == -6910000
  {
    LonKnownUnits(lon);
    ParseAxisWellFormed(lon, 3, true);
    ParseAxisWellFormed(lon, 3, false);
  }

  /** Decimal minutes beyond the fourth decimal are dropped: `4807.03859` is 7.03859
      minutes past 48 degrees, and gives 28870385 ten-thousandths, not 28870386. */
  lemma {:induction false} ParseTruncates(lat: string)
    requires lat == "4807.03859"
    ensures ParseLatFromGGA(lat, true) == 28870385
  {
    assert WellFormedAxis(lat, 2) && AxisUnits(lat, 2) == 28870385 by {
      assert NumeralIn(lat, 0, 1, 10) == 4 && NumeralIn(lat, 0, 2, 10) == 48;
      assert NumeralIn(lat, 2, 3, 10) == 0 && NumeralIn(lat, 2, 4, 10) == 7;
      assert NumeralIn(lat, 5, 6, 10) == 0 && NumeralIn(lat, 5, 7, 10) == 3 && NumeralIn(lat, 5, 8, 10) == 38;
      assert NumeralIn(lat, 5, 9, 10) == 385 && NumeralIn(lat, 5, 10, 10) == 3859;
      assert Pow10(5) == 100000;
    }
    ParseAxisWellFormed(lat, 2, true);
  }

  /** The latitude `4807.03859` N parses to 28870385, which is above 2^24: the `float`
      that `parseCoords` keeps it in holds only even values here, and the tie goes to
      28870384. */
  lemma {:induction false} ParseThroughFloat(lat: string)
    requires lat == "4807.03859"
    ensures LongThroughFloat(ParseLatFromGGA(lat, true)) == 28870384
  {
    ParseTruncates(lat);
    assert FloatSpacing(28870385) == 2 * FloatSpacing(14435192) == 2;
  }

  /** Parsing and then splitting into degrees, minutes and seconds gives back the
      degree and minute fields of the sentence, whichever the hemisphere, as long as
      the minutes are below 60 and `degrees * 60` fits an `int`. */
  lemma {:induction false} ParseThenDms(s: string, degreeDigits: nat, positive: bool)
    requires WellFormedAxis(s, degreeDigits)
    requires NumeralIn(s, degreeDigits, degreeDigits + 2, 10) < MinutesPerDegree
    requires NumeralIn(s, 0, degreeDigits, 10) * MinutesPerDegree < 32768
    ensures var d := GPSCoords.ToDMS(ParseAxis(s, degreeDigits, positive));
            d.degs == NumeralIn(s, 0, degreeDigits, 10) &&
            d.mins == NumeralIn(s, degreeDigits, degreeDigits + 2, 10)
  {
    var k := degreeDigits;
    ParseAxisWellFormed(s, k, positive);
    AxisUnitsParts(s, k);
    DmsOfParts(ParseAxis(s, k, positive), NumeralIn(s, 0, k, 10), NumeralIn(s, k, k + 2, 10),
               NumeralIn(s, k + 3, |s|, 10) * TenThousandthsPerMinute / Pow10(|s| - k - 3));
  }

  /** The value of a well-formed field whose degrees fit the `int` product: whole
      degrees, minutes and a truncated fraction of a minute, each in its range. */
  lemma {:induction false} AxisUnitsParts(s: string, k: nat)
    requires WellFormedAxis(s, k) && NumeralIn(s, 0, k, 10) * MinutesPerDegree < 32768
    ensures var dd, mm := NumeralIn(s, 0, k, 10), NumeralIn(s, k, k + 2, 10);
            var f := NumeralIn(s, k + 3, |s|, 10) * TenThousandthsPerMinute / Pow10(|s| - k - 3);
            0 <= dd && 0 <= mm && 0 <= f < TenThousandthsPerMinute &&
            AxisUnits(s, k) == dd * UnitsPerDegree + mm * TenThousandthsPerMinute + f
  {
    NumeralInBounds(s, 0, k);
    NumeralInBounds(s, k, k + 2);
    NumeralInBounds(s, k + 3, |s|);
    ScaledFractionBounds(NumeralIn(s, k + 3, |s|, 10), Pow10(|s| - k - 3), TenThousandthsPerMinute);
  }

  /** A proper fraction scaled by `m` and truncated stays below `m`. */
  lemma {:induction false} ScaledFractionBounds(n: int, p: int, m: int)
    requires 0 <= n < p && 1 <= m
    ensures 0 <= n * m / p < m
  {
    var q, r := n * m / p, n * m % p;
    assert n * m == q * p + r && 0 <= r < p;
    assert 0 <= n * m < p * m by {
      assert (p - n) * m >= 1;
    }
    assert (q + 1) * p > 0 && (q - m) * p < 0;
  }

  /** A value whose magnitude is made of whole degrees, minutes below 60 and
      ten-thousandths below a minute splits back into those degrees and minutes. */
  lemma {:induction false} DmsOfParts(v: int, dd: nat, mm: nat, f: nat)
    requires mm < MinutesPerDegree && f < TenThousandthsPerMinute
    requires var u := dd * UnitsPerDegree + mm * TenThousandthsPerMinute + f; v == u || v == -u
    ensures GPSCoords.ToDMS(v).degs == dd && GPSCoords.ToDMS(v).mins == mm
  {
    var below := mm * TenThousandthsPerMinute + f;
    var u := dd * UnitsPerDegree + below;
    assert GPSCoords.Abs(v) == u;
    assert 0 <= below < UnitsPerDegree;
    assert u / UnitsPerDegree == dd && u % UnitsPerDegree == below;
    assert below / TenThousandthsPerMinute == mm;
  }

  // ---------------------------------------------------------------------------
  // parseCoords

  /** Where the next `indexOf` starts: one past the comma found last (0 at first, and
      0 again after a search that found none). */
  function NextSearch(found: seq<int>): nat
    requires forall k :: 0 <= k < |found| ==> found[k] >= -1
  {
    if found == [] then 0 else found[|found| - 1] + 1
  }

  /** The first `n` results of the comma searches of `parseCoords`. */
  function CommaIndices(s: string, n: nat): (c: seq<int>)
    ensures |c| == n
    ensures forall k :: 0 <= k < n ==> c[k] == -1 || 0 <= c[k] < |s|
  {
    if n == 0 then []
    else
      var c := CommaIndices(s, n - 1);
      c + [IndexOf(s, ",", NextSearch(c))]
  }

  /** The fix `parseCoords` reads: the text of field 1 as the time, fields 2 to 5 as
      latitude and longitude with their hemispheres, each held in a `float` on its way
      to the `long` of the coordinates, and the text between commas 8 and 9 as the
      altitude. */
  datatype Fix = Fix(time: string, lat: int, lon: int, alt: real)

  /** Field `k` as `parseCoords` cuts it: from one past comma `k - 1` up to comma `k`. */
  function FieldAt(s: string, c: seq<int>, k: nat): string
    requires 1 <= k < |c|
  {
    Substring(s, c[k - 1] + 1, c[k])
  }

  /** The fix read from the fields between the given comma positions. */
  function FixBetween(s: string, c: seq<int>): Fix
    requires |c| == CommaCount
  {
    Fix(FieldAt(s, c, 1),
        LongThroughFloat(ParseLatFromGGA(FieldAt(s, c, 2), FieldAt(s, c, 3) == "N")),
        LongThroughFloat(ParseLonFromGGA(FieldAt(s, c, 4), FieldAt(s, c, 5) == "E")),
        ToReal(FieldAt(s, c, 9)))
  }

  /** The fix `parseCoords` reads from a sentence. */
  function ParsedFix(s: string): Fix
  {
    FixBetween(s, CommaIndices(s, CommaCount))
  }

  /** `parseCoords`: the comma positions go into an array, filled by a loop that starts
      each search one past the previous comma; the fields are then cut between them. */
  method ParseCoords(ggaString: string) returns (coords: GPSCoords.GPSCoords)
    ensures fresh(coords)
    ensures var f := ParsedFix(ggaString);
            coords.time == f.time && coords.lat == f.lat && coords.lon == f.lon && coords.alt == f.alt
  {
    var indicesOfCommas := new int[CommaCount];
    var lastCommaIndex: nat := 0;
    for i := 0 to CommaCount
      invariant indicesOfCommas[..i] == CommaIndices(ggaString, i)
      invariant lastCommaIndex == NextSearch(indicesOfCommas[..i])
    {
      indicesOfCommas[i] := IndexOf(ggaString, ",", lastCommaIndex);
      assert indicesOfCommas[..i + 1] == indicesOfCommas[..i] + [indicesOfCommas[i]];
      lastCommaIndex := indicesOfCommas[i] + 1;
    }
    assert indicesOfCommas[..] == indicesOfCommas[..CommaCount];
    coords := CoordsBetween(ggaString, indicesOfCommas[..]);
  }

  /** The second half of `parseCoords`: the fields cut between the commas, the
      hemisphere letters compared with "N" and "E", and the coordinates built. */
  method CoordsBetween(ggaString: string, c: seq<int>) returns (coords: GPSCoords.GPSCoords)
    requires |c| == CommaCount
    ensures fresh(coords)
    ensures var f := FixBetween(ggaString, c);
            coords.time == f.time && coords.lat == f.lat && coords.lon == f.lon && coords.alt == f.alt
  {
    var time := Substring(ggaString, c[0] + 1, c[1]);
    var latString := Substring(ggaString, c[1] + 1, c[2]);
    var nsString := Substring(ggaString, c[2] + 1, c[3]);
    var lonString := Substring(ggaString, c[3] + 1, c[4]);
    var ewString := Substring(ggaString, c[4] + 1, c[5]);
    var altString := Substring(ggaString, c[8] + 1, c[9]);
    var isNorth := nsString == "N";
    var isEast := ewString == "E";
    var lat := LongThroughFloat(ParseLatFromGGA(latString, isNorth));
    var lon := LongThroughFloat(ParseLonFromGGA(lonString, isEast));
    var alt := ToReal(altString);
    coords := new GPSCoords.GPSCoords(time, lat, lon, alt);
  }

  /** In a text of comma-free fields joined by commas, the comma searches find the
      comma after each field in turn. */
  lemma {:induction false} CommaIndicesOfJoin(fs: seq<string>, n: nat)
    requires n < |fs| && forall k :: 0 <= k < |fs| ==> ',' !in fs[k]
    ensures forall k :: 0 <= k < n ==> CommaIndices(Join(fs, ','), n)[k] == Offset(fs, k + 1) - 1
  {
    if n > 0 {
      CommaIndicesOfJoin(fs, n - 1);
      var s, k := Join(fs, ','), n - 1;
      var c := CommaIndices(s, k);
      assert NextSearch(c) == Offset(fs, k) by {
        if k > 0 {
          OffsetStep(fs, k - 1);
        }
      }
      CommaAfterField(fs, k);
      assert CommaIndices(s, n) == c + [Offset(fs, n) - 1];
    }
  }

  lemma {:induction false} OffsetStep(fs: seq<string>, k: nat)
    requires k < |fs|
    ensures Offset(fs, k + 1) == Offset(fs, k) + |fs[k]| + 1
  {
    if k > 0 {
      OffsetStep(fs[1..], k - 1);
    }
  }

  /** The search from the start of a field that is not the last finds the comma that
      ends it. */
  lemma {:induction false} CommaAfterField(fs: seq<string>, k: nat)
    requires k + 1 < |fs| && forall j :: 0 <= j < |fs| ==> ',' !in fs[j]
    ensures IndexOf(Join(fs, ','), ",", Offset(fs, k)) == Offset(fs, k + 1) - 1
  {
    var s, o := Join(fs, ','), Offset(fs, k);
    JoinLayout(fs, ',', k);
    OffsetStep(fs, k);
    var q := o + |fs[k]|;
    assert OccursAt(s, ",", q);
    forall p | o <= p < q
      ensures !OccursAt(s, ",", p)
    {
      assert s[p] == s[o..q][p - o] == fs[k][p - o];
      assert fs[k][p - o] in fs[k];
      assert s[p + 0] != ","[0];
    }
    IndexOfFinds(s, ",", o, q);
  }

  /** Between the comma searches of a joined text stand the fields themselves. */
  lemma {:induction false} FieldAtJoin(fs: seq<string>, k: nat)
    requires 1 <= k < CommaCount && CommaCount < |fs| && forall j :: 0 <= j < |fs| ==> ',' !in fs[j]
    ensures FieldAt(Join(fs, ','), CommaIndices(Join(fs, ','), CommaCount), k) == fs[k]
  {
    var s := Join(fs, ',');
    CommaIndicesOfJoin(fs, CommaCount);
    JoinLayout(fs, ',', k);
    OffsetStep(fs, k);
    SubstringIs(s, Offset(fs, k), Offset(fs, k) + |fs[k]|);
  }

  /** The GGA round trip: for a sentence made of at least fifteen comma-free fields,
      `parseCoords` reads the time from field 1, the coordinates from fields 2 to 5 and
      the altitude from field 9. */
  lemma {:induction false} ParseCoordsOfFields(fs: seq<string>)
    requires |fs| > CommaCount && forall j :: 0 <= j < |fs| ==> ',' !in fs[j]
    ensures ParsedFix(Join(fs, ','))
            == Fix(fs[1], LongThroughFloat(ParseLatFromGGA(fs[2], fs[3] == "N")),
                   LongThroughFloat(ParseLonFromGGA(fs[4], fs[5] == "E")), ToReal(fs[9]))
  {
    FieldAtJoin(fs, 1);
    FieldAtJoin(fs, 2);
    FieldAtJoin(fs, 3);
    FieldAtJoin(fs, 4);
    FieldAtJoin(fs, 5);
    FieldAtJoin(fs, 9);
  }

  // ---------------------------------------------------------------------------
  // calcChecksum, appendChecksum

  /** `calcChecksum`: the bytes added into one `byte`, which wraps modulo 256. */
  method CalcChecksum(msg: array<byte>, msgLength: int) returns (sum: byte)
    requires msgLength <= msg.Length
    ensures sum == UbxChecksum.Sum(msg[..Max(0, msgLength)]) % 256
  {
    sum := 0;
    var i := 0;
    while i < msgLength
      invariant 0 <= i <= Max(0, msgLength)
      invariant sum == UbxChecksum.CkA(msg[..i])
    {
      assert msg[..i + 1][..i] == msg[..i];
      sum := (sum + msg[i]) % 256;
      i := i + 1;
    }
    UbxChecksum.CkAIsSumMod(msg[..i]);
  }

  /** The plain sum does not see the order of the bytes, which the two-accumulator UBX
      checksum does: some byte runs have the same `calcChecksum` but different CK_B. */
  lemma {:induction false} PlainSumIsNotFletcher()
    ensures exists a: seq<byte>, b: seq<byte> ::
              UbxChecksum.Sum(a) % 256 == UbxChecksum.Sum(b) % 256 && UbxChecksum.CkB(a) != UbxChecksum.CkB(b)
  {
    var a: seq<byte>, b: seq<byte> := [1, 2], [2, 1];
    assert a[1..] == [2] && b[1..] == [1];
    assert a[1..][1..] == [] && b[1..][1..] == [];
    assert UbxChecksum.Sum(a[1..]) == 2 && UbxChecksum.Sum(b[1..]) == 1;
    assert UbxChecksum.Sum(a) == 3 == UbxChecksum.Sum(b);
    assert UbxChecksum.WeightedSum(a[1..]) == 2 && UbxChecksum.WeightedSum(b[1..]) == 1;
    assert UbxChecksum.WeightedSum(a) == 4 && UbxChecksum.WeightedSum(b) == 5;
    UbxChecksum.CkBIsWeightedSumMod(a);
    UbxChecksum.CkBIsWeightedSumMod(b);
  }

  /** `appendChecksum` of this class: the same loop as the UBX checksum of GNSSComm. */
  method AppendChecksum(msg: array<byte>, msgLength: int)
    requires 2 <= msgLength <= msg.Length
    modifies msg
    ensures msg[..] == UbxChecksum.WithChecksum(old(msg[..]), msgLength)
  {
    UbxChecksum.AppendChecksum(msg, msgLength);
  }
}
