# BPPCell balloon tracker: message layer and coordinate model in Dafny

This project models the core of the BPPCell Arduino library used on high-altitude
balloon trackers. The tracker reads fixes from a u-blox GNSS receiver over I2C and
reports them by SMS through a SARA G350 cellular modem. The model covers the
following parts:

- **UBX checksum** (`appendChecksum` in GNSSComm.cpp and NMEAParser.cpp). This is the
  8-bit Fletcher checksum of the u-blox UBX protocol, computed in place over a byte array
  (`ubx_checksum.dfy`).
- **GNSS message layer** (GNSSComm.cpp, `gnss_comm.dfy`):
  - the two-byte sliding-window classifier `getMessage`;
  - the length-prefixed UBX reader and the CR-LF-terminated NMEA 0183 sentence reader;
  - the upper-case hex rendering of UBX bytes;
  - the token scanner `getMessageBytesFromString`, which reads that rendering back;
  - `consumeBuffer`.
- **Flight-mode configuration** (`flight_mode.dfy`). These are the CFG-NAV5 set and poll
  exchanges `configUbloxGNSSFlightMode` and `getCurrentFlightMode`, built on the layer
  above.
- **GGA parsing** (NMEAParser.cpp, `nmea_parser.dfy`):
  - comma-position field splitting of a GGA sentence ("Global Positioning System Fix
    Data");
  - the conversion of `ddmm.mmmm` / `dddmm.mmmm` to signed fixed-point units of 10^-4
    arc-minute;
  - the plain byte sum `calcChecksum`.
- **`GPSCoords`** (GPSCoords.cpp, `gps_coords.dfy`):
  - the fix object with its constructor, setters and getters;
  - the degree-minute-second decomposition;
  - the `hhmmss` to `hh:mm:ss` time formatter;
  - the text layouts of `formatCoordsForText`.
- **Shared types and constants** of BPPCell.h (`bppcell.dfy`):
  - 60 minutes per degree, 10000 units per minute, 60 seconds per minute;
  - format codes 1 to 5;
  - the `DMSCoords` record.
- **Modem reply decisions** of CellComm.cpp (`cell_comm.dfy`):
  - the recursive substring counter `countOccurences`;
  - the tests that `getMessage` and `deleteAllMessages` apply to the modem's reply.

Supporting modules:
- `arduino.dfy` gives the Arduino `String` and C-library operations the source relies on:
  - `indexOf`, `substring` and `trim`;
  - `toInt` as `atol` and `toFloat` as `atof`;
  - `strtol` in base 16;
  - integer printing.
- `fields.dfy` gives `Split`/`Join` over a separator, with their round trip.

How the hardware is modelled:
- **Bus.** The I2C bus is a finite sequence of bytes.
- **Timeouts.** A read that would wait until its timeout instead finds the input
  exhausted.
- **Readers.** Every reader returns the text it built and the number of bytes it
  consumed.
- **Wait loops.** The receiver-response loops become "the first message, read message
  after message, whose text contains the pattern decides".
- **Floats.** Floating-point printing (`String(float)`, `dtostrf`) is a function
  parameter of the layouts.
- **Integers.** Integers are unbounded except where the 16-bit `int` of the 8-bit target
  matters: `degrees*60` in the GGA parser and the payload count `256*h[5] + h[4] + 2` of
  the UBX reader, both modelled by `Arduino.Int16`. `byte` arithmetic is written modulo
  256. A `long` coordinate stored in a `float` on its way to the fix is rounded to the
  24-bit significand (`Arduino.LongThroughFloat`).

Where the library's documentation and its code differ, the model follows the code:
- **Altitude.** The altitude of a fix is the GGA altitude field alone. The code adds no
  geoid separation (NMEAParser.cpp:56, 69).
- **Decimal-degree layouts.** These are modelled as the switch writes them, although
  BPPCell.h:85 calls them unsupported.

## Model

| member | source | states |
|---|---|---|
| UbxChecksum.CkAIsSumMod | GNSSComm.cpp:123-129 | the 8-bit CK_A accumulator after a run of bytes is their sum mod 256 |
| UbxChecksum.CkBIsWeightedSumMod | GNSSComm.cpp:123-129 | the 8-bit CK_B accumulator is the sum of the running CK_A values mod 256 |
| UbxChecksum.AppendChecksumWrites | GNSSComm.cpp:120-134 | byte len-2 becomes the sum of bytes 2..len-3 mod 256, byte len-1 the sum of the running sums mod 256, and every other byte is unchanged |
| UbxChecksum.ChecksumIgnoresSyncAndSlots | GNSSComm.cpp:125-133 | two frames that agree outside the sync pair and the checksum slots get the same checksummed body: the result does not depend on bytes 0, 1 or the old slots |
| UbxChecksum.ChecksumIdempotent | GNSSComm.cpp:125-133 | checksumming a frame twice leaves what checksumming it once leaves |
| UbxChecksum.WithChecksumIsValid | GNSSComm.cpp:120-134 | after `appendChecksum` over the whole frame, the frame passes the UBX checksum test |
| UbxChecksum.SingleByteChangeDetected | GNSSComm.cpp:125-129 | changing any one byte of the checksummed range of a valid frame makes the checksum test fail |
| UbxChecksum.AppendChecksum | GNSSComm.cpp:120-134 | the in-place loop leaves the array equal to the frame with its checksum appended |
| UbxChecksum.PollFrameChecksum | GNSSComm.cpp:318 | the CFG-NAV5 poll frame B5 62 06 24 00 00 gets the checksum 2A 84 written in the source |
| UbxChecksum.AckFrameChecksum | GNSSComm.cpp:297 | the ACK-ACK frame B5 62 05 01 02 00 06 24 gets the checksum 32 5B of the expected response |
| NMEAParser.AppendChecksum | NMEAParser.cpp:192-206 | the parser's copy of `appendChecksum` leaves the array exactly as the GNSSComm one does |
| NMEAParser.CalcChecksum | NMEAParser.cpp:181-190 | the result is the plain sum of the first msgLength bytes mod 256 (none for a negative length) |
| NMEAParser.PlainSumIsNotFletcher | NMEAParser.cpp:178-190 | there are byte runs with equal plain sums but different Fletcher CK_B, so `calcChecksum` is not the Fletcher checksum its comment names |
| GNSSComm.ConsumeBuffer | GNSSComm.cpp:112-118 | returns the first byte that is neither padding 0xFF nor NUL, with every byte before it padding; None when the input holds only padding |
| GNSSComm.HexTokenRoundTrip | GNSSComm.cpp:206-207 | `strtol(…, 16)` of the upper-case hex text of a byte gives the byte back, and the text holds no space |
| GNSSComm.RenderAppend | GNSSComm.cpp:205-220 | the rendering of two byte runs one after the other is the two renderings concatenated |
| GNSSComm.RenderAt | GNSSComm.cpp:205-220 | in the rendering, byte k's token stands at the length of the rendering of the bytes before it and is followed by a space |
| GNSSComm.HexTokensRoundTrip | GNSSComm.cpp:206-207 | reading back the tokens of a byte run gives the bytes |
| GNSSComm.ScanRender | GNSSComm.cpp:352-369 | scanning the rendering of a byte run from token k yields the hex tokens of the bytes from max(start,k) up to stop |
| GNSSComm.TokensOfRender | GNSSComm.cpp:347-370 | on the rendering of bytes, tokens start..stop-1 read back to exactly those bytes (clipped to the run) |
| GNSSComm.TokenAt | GNSSComm.cpp:353-355 | at a token followed by a space, `indexOf(' ')` finds that space and the trimmed substring is the token |
| GNSSComm.ScanTokensLength | GNSSComm.cpp:352-369 | the scan stores at most stop - max(0,start) tokens |
| GNSSComm.StoreToken | GNSSComm.cpp:353-368 | one turn of the scanning loop stores the value of token byteIndex at the next buffer slot when byteIndex >= start and leaves later slots alone |
| GNSSComm.GetMessageBytesFromString | GNSSComm.cpp:347-370 | buf[0..n) holds the hex values of tokens start..stop-1 of the text, and every later slot is unchanged |
| GNSSComm.UbxHeaderIs | GNSSComm.cpp:187-202 | the header holds the sync pair, then the next four input bytes, then 0 where the input ran out |
| GNSSComm.ReadUbxHeader | GNSSComm.cpp:187-202 | the header loop fills slots 2..5 from the input and takes min(4, input length) bytes |
| GNSSComm.AppendRendered | GNSSComm.cpp:205-210 | the rendering loop appends each byte as upper-case hex and a space |
| GNSSComm.ReadUBXMessageFromI2C | GNSSComm.cpp:184-230 | the reader returns the rendered header and then as many bytes as the 16-bit count 256*h[5]+h[4]+2 gives (none when it wraps below zero), as far as the input holds them |
| GNSSComm.PayloadCountWraps | GNSSComm.cpp:212-215 | the count is the length field plus 2 while that stays below 2^15; length `FF FF` counts 1 byte, and a high length byte from 0x80 to 0xFE counts none |
| GNSSComm.UbxReadComplete | GNSSComm.cpp:212-227 | on input holding the whole frame, the reader renders the sync pair, four header bytes and exactly the payload and checksum bytes the 16-bit count gives, and takes just those |
| GNSSComm.DropCRHasNoCR | GNSSComm.cpp:259-263 | the bytes the NMEA reader appends hold no CR and are never more than were read |
| GNSSComm.NmeaReadShape | GNSSComm.cpp:234-273 | the NMEA text starts with '$'; the reader stops at the first CR LF and ends its text with CR LF and no other CR; without a CR LF it takes the whole input |
| GNSSComm.ReadNMEAMessageFromI2C | GNSSComm.cpp:234-273 | the window loop returns the text and byte count of the NMEA reading of the input |
| GNSSComm.FirstSyncIs | GNSSComm.cpp:153-168 | a sync pair with no sync pair before it is the first the window meets |
| GNSSComm.ReadAfterSyncFromI2C | GNSSComm.cpp:157-168 | after B5 62 the UBX reader runs, after $G and $P the NMEA reader with that type byte |
| GNSSComm.GetMessage | GNSSComm.cpp:148-177 | the window loop returns the message after the first sync pair and the bytes it used, or "No message." and the whole input |
| GNSSComm.ReadAfterSyncFirst | GNSSComm.cpp:157-168 | a message read after B5 62 starts with 'B' and one read after $G or $P with '$', so the three sync pairs lead to distinguishable texts |
| GNSSComm.MessageReadNone | GNSSComm.cpp:153-176 | `getMessage` answers "No message." exactly when no sync pair passes through the window |
| FlightMode.AwaitResponse | GNSSComm.cpp:303-308 | the wait loop yields the first message in the stream whose text contains the pattern |
| FlightMode.FirstMatchStep | GNSSComm.cpp:304-307 | a message containing the pattern decides; otherwise the search goes on after the bytes it used |
| FlightMode.FirstMatchContains | GNSSComm.cpp:305 | a found response contains the pattern, and the first message of the stream is found when it contains it |
| FlightMode.FlightModeFrameIs | GNSSComm.cpp:284-294 | the set frame is 44 = 6 + 0x24 + 2 bytes, holds the mode at index 8, passes the checksum test, and equals the template everywhere else before the checksum |
| FlightMode.ConfigUbloxGNSSFlightMode | GNSSComm.cpp:279-310 | a mode above 8 fails at once with nothing sent; otherwise the set frame is sent and the result is failure exactly when no message carrying the expected ACK text arrives |
| FlightMode.GetCurrentFlightMode | GNSSComm.cpp:317-338 | sends the poll frame and returns token 8 of the first response carrying the CFG-NAV5 header, or -1 when none arrives |
| FlightMode.UbxFrameRoundTrip | GNSSComm.cpp:148-230 | a complete UBX frame whose length plus checksum stays below 2^15 is read as the rendering of exactly its bytes |
| FlightMode.FlightModeOfRendering | GNSSComm.cpp:331-334 | token 8 of the rendering of a frame reads back byte 8 |
| FlightMode.AckFrameValid | GNSSComm.cpp:297 | the ACK-ACK frame is a well-formed UBX frame with a valid checksum |
| FlightMode.AckRendering | GNSSComm.cpp:297 | the rendering of the ACK-ACK frame is exactly the expected response text |
| FlightMode.AckAccepted | GNSSComm.cpp:297-307 | an ACK-ACK frame on the bus is accepted by the wait loop |
| FlightMode.Nav5HeaderRendering | GNSSComm.cpp:322 | the CFG-NAV5 header renders as the header pattern the poll looks for |
| FlightMode.PolledModeIsByte8 | GNSSComm.cpp:328-334 | a CFG-NAV5 frame on the bus is 44 bytes, is the response the poll takes, and its mode is read from byte 8 |
| FlightMode.TemplateHeader | GNSSComm.cpp:284-291 | the template is 44 bytes and starts with the CFG-NAV5 header |
| FlightMode.FlightModeRoundTrip | GNSSComm.cpp:292-293 | polling the frame the setter built reads back the mode that was set: index 8 read is index 8 written |
| Arduino.Int16 | NMEAParser.cpp:111 | the 16-bit `int` result lies in [-32768, 32768), is the value itself when it fits, and differs from it by a multiple of 2^16 |
| NMEAParser.ParseAxisWellFormed | NMEAParser.cpp:110-136 | on a well-formed field, the parse is ±(degrees*600000 + minutes*10000 + fraction digits*10000 / 10^digits), plus when the hemisphere is N or E |
| NMEAParser.AxisFieldValues | NMEAParser.cpp:111-113 | on a well-formed field, the `toInt` of the degree and minute slices are their digits' values, and the truncated `toFloat` of the rest times 10000 is the truncated fraction |
| NMEAParser.ParseAxisSign | NMEAParser.cpp:114-121 | any hemisphere other than N (E) gives exactly the negated value |
| NMEAParser.LatKnownUnits | NMEAParser.cpp:110-122 | "4807.038" is a well-formed latitude worth 28870380 units |
| NMEAParser.ParseLatKnownAnswer | NMEAParser.cpp:110-122 | "4807.038" parses to 28870380 north and -28870380 south |
| NMEAParser.LonKnownUnits | NMEAParser.cpp:124-136 | "01131.000" is a well-formed longitude worth 6910000 units |
| NMEAParser.ParseLonKnownAnswer | NMEAParser.cpp:124-136 | "01131.000" parses to 6910000 east and -6910000 west |
| NMEAParser.ParseTruncates | NMEAParser.cpp:121 | "4807.03859" parses to 28870385: fractional units are truncated, not rounded |
| NMEAParser.AxisUnitsParts | NMEAParser.cpp:121 | the magnitude splits into degrees*600000 + minutes*10000 + a fraction below 10000 |
| NMEAParser.ScaledFractionBounds | NMEAParser.cpp:121 | a proper fraction scaled by 10000 and truncated stays in [0, 10000) |
| NMEAParser.DmsOfParts | GPSCoords.cpp:219-234 | a value built from degrees, minutes < 60 and a fraction below one minute decomposes back into those degrees and minutes |
| NMEAParser.ParseThenDms | NMEAParser.cpp:110-136 | parsing a field and converting to degrees-minutes-seconds gives back the field's degrees and minutes |
| NMEAParser.CommaIndices | NMEAParser.cpp:43-49 | the fourteen comma positions, each -1 or an index into the sentence |
| NMEAParser.CommaIndicesOfJoin | NMEAParser.cpp:46-49 | in a sentence of comma-free fields, the k-th comma found is the one after field k |
| NMEAParser.CommaAfterField | NMEAParser.cpp:47 | searching from the start of a field finds the comma that ends it |
| NMEAParser.FieldAtJoin | NMEAParser.cpp:51-56 | the substring between commas k and k+1 is field k |
| NMEAParser.ParseCoordsOfFields | NMEAParser.cpp:40-71 | a GGA sentence's fix takes time from field 1, the latitude from field 2 with N/S from 3, the longitude from 4 with E/W from 5, each rounded through a `float`, and the altitude from field 9, with no geoid term |
| NMEAParser.ParseCoords | NMEAParser.cpp:40-71 | the comma loop and slicing build a fix object holding the parsed time, the latitude and longitude rounded through a `float`, and the altitude |
| NMEAParser.CoordsBetween | NMEAParser.cpp:51-70 | given the comma positions, the new fix object holds the fields between them, parsed, with the coordinates rounded through a `float` |
| NMEAParser.ParseThroughFloat | NMEAParser.cpp:66-70 | the latitude "4807.03859" N parses to 28870385 and reaches the fix as 28870384: above 2^24 a `float` holds only even values and the tie goes to the even multiple |
| Arduino.LongThroughFloatNear | NMEAParser.cpp:67-70 | a `long` below 2^24 in magnitude passes through a `float` unchanged; any other moves by at most half the `float` spacing and keeps its sign |
| Arduino.LongThroughFloatGrid | NMEAParser.cpp:67-70 | the magnitude of a `long` comes back from a `float` even between 2^24 and 2^25, a multiple of 4 up to 2^26 and of 8 up to 2^27: latitudes above about 28 degrees keep only even units, longitudes above about 56 degrees multiples of 4 |
| GPSCoords.Abs | GPSCoords.cpp:219-220 | `abs` gives the value or its negation, never negative |
| GPSCoords.ToDMS | GPSCoords.cpp:217-239 | minutes lie in [0, 60) and seconds in [0, 60) |
| GPSCoords.DmsReconstructs | GPSCoords.cpp:222-239 | degrees*600000 + minutes*10000 + seconds*10000/60 is exactly the magnitude |
| GPSCoords.DmsDeterminesMagnitude | GPSCoords.cpp:219-239 | two values have the same degrees, minutes and seconds exactly when they have the same magnitude, so v and -v agree |
| GPSCoords.DmsKnownAnswer | GPSCoords.cpp:222-239 | 28870380 and -28870380 are both 48 degrees, 7 minutes, 2.28 seconds |
| GPSCoords.DmsCoordsRoundTrip | GPSCoords.cpp:217-253 | the signed DMS coordinates give back the stored latitude and longitude, and isNorth (isEast) holds exactly when the value is >= 0 |
| GPSCoords.FormattedTimeIs | GPSCoords.cpp:269-273 | the time text is chars 0-1, ':', chars 2-3, ':', the rest, with slices clipped to the text |
| GPSCoords.FormattedTimeRoundTrip | GPSCoords.cpp:269-273 | the formatted time is two characters longer, holds ':' at the two cut points, and removing them gives the time back |
| GPSCoords.FormattedTimeChars | GPSCoords.cpp:271 | the formatted time holds only characters of the time text and ':' |
| GPSCoords.CoordsText | GPSCoords.cpp:69-211 | a format code outside 1..5 yields the empty text |
| GPSCoords.GPSCoords.constructor | GPSCoords.cpp:30-35 | the new fix holds its four arguments |
| GPSCoords.GPSCoords.SetTime | GPSCoords.cpp:37-39 | the time getter returns the new time and the other fields are unchanged |
| GPSCoords.GPSCoords.SetLat | GPSCoords.cpp:41-43 | the latitude getter returns the new latitude and the other fields are unchanged |
| GPSCoords.GPSCoords.SetLon | GPSCoords.cpp:45-47 | the longitude getter returns the new longitude and the other fields are unchanged |
| GPSCoords.GPSCoords.SetAlt | GPSCoords.cpp:49-51 | the altitude getter returns the new altitude and the other fields are unchanged |
| GPSCoords.GPSCoords.FormatCoordsForText | GPSCoords.cpp:69-211 | the appends build the report of the layout the format code names, from the stored fix |
| GPSCoords.AppendDmsReport | GPSCoords.cpp:72-103 | the FORMAT_DMS appends build the four-line DMS report |
| GPSCoords.AppendDmsAxis | GPSCoords.cpp:75-87 | the appends of one axis give `Lat: <degs>° <mins>' <secs>" <N/S>` |
| GPSCoords.AppendDmsOneLineReport | GPSCoords.cpp:104-133 | the FORMAT_DMS_ONELINE appends build the four pieces without separators |
| GPSCoords.AppendDecDegsReport | GPSCoords.cpp:134-159 | the FORMAT_DEC_DEGS appends build the four-line decimal-degree report |
| GPSCoords.AppendDecAxis | GPSCoords.cpp:147-150 | the appends of one axis give `Lat: <degrees>°` |
| GPSCoords.AppendDecDegsCsvReport | GPSCoords.cpp:161-180 | the FORMAT_DEC_DEGS_CSV appends join time, latitude, longitude and altitude with commas |
| GPSCoords.AppendDmsCsvReport | GPSCoords.cpp:182-206 | the FORMAT_DMS_CSV appends join its eight fields with commas |
| GPSCoords.DmsTextLines | GPSCoords.cpp:72-103 | the DMS report splits into the time line, the latitude line, the longitude line, the altitude line and an empty tail |
| GPSCoords.DecDegsTextLines | GPSCoords.cpp:134-159 | the decimal-degree report splits into its time, latitude, longitude and altitude lines |
| GPSCoords.DmsOneLineIsDmsPieces | GPSCoords.cpp:104-133 | the one-line report is the four lines of the DMS report run together |
| GPSCoords.DecDegsCsvSplit | GPSCoords.cpp:161-180 | splitting the decimal-degree CSV report at commas gives back its four fields |
| GPSCoords.DmsCsvSplit | GPSCoords.cpp:182-206 | splitting the DMS CSV report at commas gives back its eight fields |
| GPSCoords.DmsCsvLatSignOnTime | GPSCoords.cpp:184-188 | as written, the latitude-degree field never starts with '-', and the first field starts with '-' before the time exactly when the latitude is south |
| GPSCoords.DmsCsvSouthExample | GPSCoords.cpp:182-188 | one degree south at 12:00:00 starts the report with `-12:00:00,1` |
| GPSCoords.DmsCsvFieldsSignedCorrect | GPSCoords.cpp:184-197 | with each sign on its own axis, the first field is the time, and each degree field starts with '-' exactly when its axis is south or west |
| Fields.SplitJoin | GPSCoords.cpp:161-206 | joining comma-free fields and splitting again gives the fields back |
| Fields.JoinSplit | GPSCoords.cpp:161-206 | splitting a text and joining the fields gives the text back |
| Fields.JoinLayout | NMEAParser.cpp:50-56 | in a joined text, field k stands at its offset and a separator follows it unless it is the last |
| CellComm.CountOccurrences | CellComm.cpp:169-176 | from a start >= 0, the count never exceeds the positions left to search |
| CellComm.CountIsOccurrences | CellComm.cpp:167-176 | from a start >= 0, the result is the number of positions at or after the start where the target occurs |
| CellComm.CountZeroIffAbsent | CellComm.cpp:171-173 | the result is 0 exactly when the target occurs nowhere at or after the start, or the start is negative |
| CellComm.CountNonIncreasing | CellComm.cpp:169-176 | moving the start forward never increases the count |
| CellComm.CountOverlapping | CellComm.cpp:174-175 | overlapping occurrences count: "aa" occurs twice in "aaa" |
| CellComm.GetMessageReply | CellComm.cpp:115-118 | as written, the reply is returned when it contains the invalid-index error and "" otherwise |
| CellComm.GetMessageDropsMessage | CellComm.cpp:97-118 | as written, a reply that carries a message and no error yields "" |
| CellComm.GetMessageReplyIntended | CellComm.cpp:97-99 | as documented, "" when the reply contains the invalid-index error and the reply otherwise |
| CellComm.DeleteAllMessagesReply | CellComm.cpp:136-138 | the result is true exactly when the reply contains "OK" |
| Arduino.IndexOfIsFirst | CellComm.cpp:171 | `indexOf` returns the first position at or after the start where the target occurs, or -1 when there is none |
| Arduino.SubstringIs | NMEAParser.cpp:51-56 | `substring` swaps reversed bounds, clips an end past the text, and treats a failed search's -1 end as "to the end" |
| Arduino.TrimIs | GNSSComm.cpp:355 | `trim` removes exactly the leading and trailing white space |
| Arduino.DigitFieldValue | NMEAParser.cpp:111-112 | `toInt` of a slice of digits is the value of the digits |
| Arduino.FractionAtValue | NMEAParser.cpp:113 | `toFloat` of '.' and digits is the digits' value over 10 to the number of digits |
| Arduino.TruncateScaledFraction | NMEAParser.cpp:121 | the `(long)` cast of n/p scaled by m is n*m div p |

## Left out

- Bus transport and timing (`I2c.*`, `Wire.*`, `delay`, `millis`, `sendMessageToGNSS`): the bus is a finite input and a timeout is its end; what a function sends is returned as bytes.
- `getGGAString`, `getNextLine`, `readFromI2C`, `readFromI2CPretty`, `readOneCharFromI2C`, `consumeCurrentLine` in GNSSComm.cpp: bus-polling loops with no decision beyond reading.
- The NMEAParser.cpp stream readers (`getMessage`, `readUBXMessageFromWire`, `readNMEAMessageFromWire`, `readFromWire*`, `consumeBuffer`, `consumeCurrentLine`, `getGGAString`): older copies of the GNSSComm.cpp readers whose behaviour cannot be stated; the `getMessage` there has no return statement and the sync-byte fields are never initialised.
- CellComm.cpp `setup`, `sendMessage`, `getCSQ`, `getNumMessages` and the serial reads around `getMessage` and `deleteAllMessages`: AT-command I/O. `getNumMessages` also starts its count at -1 and can count a reply twice across read chunks; it is not part of this model. The char-buffer NUL termination of those reads is not modelled: the reply is the text read.
- `getLatLonInDecDegs` and every floating-point rendering (`String(float)`, `dtostrf`): the layouts take them as function parameters (`FloatText`, `FixedText`), so the decimal-degree reports are modelled up to those renderings.
- Floating-point arithmetic: altitude and seconds are exact rationals; `toFloat` reads its digits as an exact decimal (no exponent form).
- Arduino.LongThroughFloatGrid: the `long`-to-`float` conversion is modelled as IEEE 754 single-precision rounding to nearest, ties to even; the grid of the result is stated for magnitudes below 2^27, which holds every latitude and longitude a GGA field can give.
- NMEAParser.ParseAxis: `toInt` results are at most three characters and always fit a 16-bit `int`, so that conversion is not written out; in the parser only the 16-bit product `degrees*60` wraps (`Int16`). The 32-bit `long` never overflows for the fields of a GGA sentence and is not modelled, nor is `abs(LONG_MIN)` in `getLatLonInDMS`.
- The wait loops of `configUbloxGNSSFlightMode` and `getCurrentFlightMode` are wall-clock retry loops: the model reads message after message until the stream ends, and the first message containing the pattern decides.
- The padding and NUL values `_BUFFER_CHAR` (0xFF) and `_NULL_CHAR` (0x00) are not defined in the header shown; the model uses those values as constants.
- `calcChecksum`'s comment calls it Fletcher's checksum; the code sums bytes, and the model follows the code (`NMEAParser.PlainSumIsNotFletcher`).
- `GPSCoords.GPSCoords.FormatCoordsForText` states the report through `CoordsText`; the layout lemmas state the line and field structure, not the float text inside them.

## Findings

| source | as written | input that shows it | evidently intended | confidence | as-written member | corrected member |
|---|---|---|---|---|---|---|
| GPSCoords.cpp:184-188 | FORMAT_DMS_CSV writes the "-" of a southern latitude before the time field | latitude -600000 (1 degree south) at time "120000" gives `-12:00:00,1,...` | the minus sign in front of the latitude degrees, as the longitude's is (GPSCoords.cpp:195-197) | high, not executed | GPSCoords.DmsCsvSouthExample | GPSCoords.DmsCsvFieldsSignedCorrect |
| CellComm.cpp:115-118 | `getMessage` returns "" when the reply lacks the invalid-index error and the reply when it has it | the reply `+CMGR: "REC READ"\r\nhello\r\nOK` yields "" | "" for an invalid index and the reply otherwise, as the comment at CellComm.cpp:97-99 says | high, not executed | CellComm.GetMessageDropsMessage | CellComm.GetMessageReplyIntended |
