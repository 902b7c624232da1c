/** GNSSComm.cpp, continued: setting and reading the receiver's dynamic platform model
    (its "flight mode") with UBX CFG-NAV5 messages. */
module FlightMode {
  import opened Arduino
  import opened UbxChecksum
  import opened GNSSComm

  // ---------------------------------------------------------------------------
  // Waiting for a response: the loops of configUbloxGNSSFlightMode and getCurrentFlightMode

  /** The first message `getMessage` reads from the stream, message after message, whose
      text contains `pattern`; None when the stream ends first. When the stream is
      exhausted `getMessage` only returns "No message.", so the wait ends there. */
  function FirstMatch(input: seq<byte>, pattern: string): Option<string>
    decreases |input|
  {
    if input == [] then None
    else
      var r := MessageRead(input);
      if IndexOf(r.text, pattern, 0) > -1 then Some(r.text) else FirstMatch(input[r.used..], pattern)
  }

  /** The wait loop: calls `getMessage` until a response contains `pattern`. */
  method AwaitResponse(input: seq<byte>, pattern: string) returns (response: Option<string>)
    ensures response == FirstMatch(input, pattern)
  {
    var pos := 0;
    while pos < |input|
      invariant pos <= |input|
      invariant FirstMatch(input[pos..], pattern) == FirstMatch(input, pattern)
      decreases |input| - pos
    {
      var found, next := AwaitTurn(input, pos, pattern);
      if found.Some? {
        return found;
      }
      pos := next;
    }
    return None;
  }

  /** One turn of the wait loop: read the next message and test it. */
  method AwaitTurn(input: seq<byte>, pos: nat, pattern: string) returns (found: Option<string>, next: nat)
    requires pos < |input|
    ensures pos < next <= |input|
    ensures found.Some? ==> found == FirstMatch(input[pos..], pattern)
    ensures found.None? ==> FirstMatch(input[pos..], pattern) == FirstMatch(input[next..], pattern)
  {
    var text, used := GetMessage(input[pos..]);
    FirstMatchStep(input, pos, pattern, text, used);
    if IndexOf(text, pattern, 0) > -1 {
      return Some(text), pos + used;
    }
    return None, pos + used;
  }

  /** The message read at `pos` decides the wait, or the wait goes on after it. */
  lemma {:induction false} FirstMatchStep(input: seq<byte>, pos: nat, pattern: string, text: string, used: nat)
    requires pos < |input| && Read(text, used) == MessageRead(input[pos..])
    ensures 1 <= used <= |input| - pos
    ensures IndexOf(text, pattern, 0) > -1 ==> FirstMatch(input[pos..], pattern) == Some(text)
    ensures IndexOf(text, pattern, 0) == -1 ==>
              FirstMatch(input[pos..], pattern) == FirstMatch(input[pos + used..], pattern)
  {
    assert input[pos..][used..] == input[pos + used..];
  }

  /** A matched response contains the pattern, and a stream that starts with a message
      containing the pattern is answered by that message. */
  lemma {:induction false} FirstMatchContains(input: seq<byte>, pattern: string)
    decreases |input|
    ensures FirstMatch(input, pattern).Some? ==> Contains(FirstMatch(input, pattern).value, pattern)
    ensures input != [] && Contains(MessageRead(input).text, pattern) ==>
              FirstMatch(input, pattern) == Some(MessageRead(input).text)
  {
    if input != [] {
      var r := MessageRead(input);
      IndexOfFindsIffContains(r.text, pattern);
      if IndexOf(r.text, pattern, 0) == -1 {
        FirstMatchContains(input[r.used..], pattern);
      }
    }
  }

  // ---------------------------------------------------------------------------
  // configUbloxGNSSFlightMode and getCurrentFlightMode

  /** The highest dynamic platform model the setter accepts. */
  const MaxValidMode := 8
  /** Where the dynamic platform model sits in a CFG-NAV5 frame. */
  const IndexOfMode := 8
  const Nav5FrameLength := 44

  /** The UBX header of the CFG-NAV5 message: class 06, id 24, payload length 0x24. */
  const Nav5Header: seq<byte> := [0xB5, 0x62, 0x06, 0x24, 0x24, 0x00]

  /** The 0x24 payload bytes `configUbloxGNSSFlightMode` sends: mask FF FF, the mode slot
      (0 here), auto 2D/3D fix, then the receiver's defaults and reserved bytes. */
  const Nav5Payload: seq<byte> :=
    [0xFF, 0xFF, 0x00, 0x03, 0x00, 0x00, 0x00, 0x00,
     0x16, 0x2C, 0x00, 0x00, 0x05, 0x00, 0xA3, 0x00,
     0xA3, 0x00, 0x64, 0x00, 0x27, 0x01, 0x00, 0x3C,
     0x00, 0x00, 0x00, 0x00, 0x00, 0x00, 0x00, 0x00,
     0x00, 0x00, 0x00, 0x00]

  /** The frame the setter starts from: header, payload and two checksum slots. */
  const Nav5Template: seq<byte> := Nav5Header + Nav5Payload + [0x00, 0x00]

  /** The CFG-NAV5 poll request `getCurrentFlightMode` sends, checksum included. */
  const PollFrame: seq<byte> := [0xB5, 0x62, 0x06, 0x24, 0x00, 0x00, 0x2A, 0x84]

  /** The ACK-ACK for CFG-NAV5 as `readUBXMessageFromI2C` renders it. */
  const ExpectedAck: string := "B5 62 5 1 2 0 6 24 32 5B "
  /** The ACK-ACK frame itself: class 05, id 01, length 2, payload 06 24, checksum. */
  const AckFrame: seq<byte> := [0xB5, 0x62, 0x05, 0x01, 0x02, 0x00, 0x06, 0x24, 0x32, 0x5B]
  /** The rendered header of a CFG-NAV5 message with its 0x24-byte payload. */
  const Nav5ResponseHeader: string := "B5 62 6 24 24 0"

  /** The frame the setter sends for a valid mode. */
  function FlightModeFrame(mode: byte): (f: seq<byte>)
    ensures |f| == Nav5FrameLength
  {
    WithChecksum(Nav5Template[IndexOfMode := mode], Nav5FrameLength)
  }

  /** The frame is the template with the mode at byte 8 and a checksum that verifies; its
      length is the six header bytes, the 0x24 payload bytes of its length field and the
      two checksum bytes. */
  lemma {:induction false} FlightModeFrameIs(mode: byte)
    ensures var f := FlightModeFrame(mode);
            |f| == 6 + (f[4] as int + 256 * f[5] as int) + 2 &&
            f[IndexOfMode] == mode && ChecksumValid(f) &&
            forall i :: 0 <= i < Nav5FrameLength - 2 && i != IndexOfMode ==> f[i] == Nav5Template[i]
  {
    var t := Nav5Template[IndexOfMode := mode];
    AppendChecksumWrites(t, Nav5FrameLength);
    WithChecksumIsValid(t);
  }

  /** `configUbloxGNSSFlightMode(mode)`: rejects a mode above 8 before sending anything;
      otherwise sends the CFG-NAV5 frame and waits for the ACK-ACK. `sent` is what goes to
      the receiver; `failed` is the source's return value, true (1) for failure. */
  method ConfigUbloxGNSSFlightMode(mode: byte, input: seq<byte>) returns (failed: bool, sent: seq<byte>)
    ensures mode > MaxValidMode ==> failed && sent == []
    ensures mode <= MaxValidMode ==>
              sent == FlightModeFrame(mode) && (failed <==> FirstMatch(input, ExpectedAck).None?)
  {
    if mode > MaxValidMode {
      return true, [];
    }
    var msg := new byte[Nav5FrameLength](i requires 0 <= i < Nav5FrameLength => Nav5Template[i]);
    assert msg[..] == Nav5Template;
    msg[IndexOfMode] := mode;
    assert msg[..] == Nav5Template[IndexOfMode := mode];
    AppendChecksum(msg, Nav5FrameLength);
    sent := msg[..];
    var response := AwaitResponse(input, ExpectedAck);
    failed := response.None?;
  }

  /** The mode byte `getCurrentFlightMode` takes from a response: token 8 of the text,
      written into a one-byte buffer that starts out 0. */
  function FlightModeOf(response: string): (m: byte)
  {
    var w := TokensBetween(response, IndexOfMode, IndexOfMode + 1);
    if |w| == 1 then TokenByte(w[0]) else 0
  }

  /** `getCurrentFlightMode()`: sends the poll request and returns the mode byte of the
      first CFG-NAV5 response, or -1 when none arrives. */
  method GetCurrentFlightMode(input: seq<byte>) returns (sent: seq<byte>, mode: int)
    ensures sent == PollFrame
    ensures mode == match FirstMatch(input, Nav5ResponseHeader)
                    case None => -1
                    case Some(response) => FlightModeOf(response) as int
  {
    sent := PollFrame;
    var response := AwaitResponse(input, Nav5ResponseHeader);
    if response.None? {
      return sent, -1;
    }
    var buf := new byte[1](i => 0);
    GetMessageBytesFromString(response.value, buf, IndexOfMode, IndexOfMode + 1);
    ScanTokensLength(response.value, 0, 0, IndexOfMode, IndexOfMode + 1);
    mode := buf[0];
  }

  // ---------------------------------------------------------------------------
  // Round trips through the receiver's stream

  /** A complete UBX frame: the sync pair, a four-byte header whose little-endian length
      field counts the payload, the payload and two checksum bytes; the length plus the
      checksum stays below 2^15, so the reader's 16-bit count does not wrap. */
  predicate IsUbxFrame(f: seq<byte>)
  {
    |f| >= 8 && f[0] == MuLowercase && f[1] == BLowercase &&
    f[4] as int + 256 * f[5] as int + 2 < 32768 &&
    |f| == 6 + (f[4] as int + 256 * f[5] as int) + 2
  }

  /** Rendering one more byte, for a sequence built by appending. */
  lemma {:induction false} RenderPush(s: seq<byte>, x: byte)
    ensures Render(s + [x]) == Render(s) + HexToken(x) + " "
  {
    assert (s + [x])[..|s|] == s;
  }

  /** `getMessage` on a stream that starts with a complete UBX frame returns the frame's
      rendering and consumes exactly the frame. */
  lemma {:induction false} UbxFrameRoundTrip(f: seq<byte>, rest: seq<byte>)
    requires IsUbxFrame(f)
    ensures MessageRead(f + rest) == Read(Render(f), |f|)
  {
    UbxReadFrame(f, rest);
    MessageReadAtUbxSync(f + rest, Render(f), |f| - 2);
  }

  /** A stream that starts with the UBX sync pair is read by the UBX reader from byte 2. */
  lemma {:induction false} MessageReadAtUbxSync(input: seq<byte>, text: string, used: nat)
    requires |input| >= 2 && input[0] == MuLowercase && input[1] == BLowercase
    requires UbxRead(input[2..]) == Read(text, used)
    ensures MessageRead(input) == Read(text, used + 2)
  {
    assert !SyncAt(input, 0) && SyncAt(input, 1);
    FirstSyncIs(input, 0, 1);
    assert Classify(WindowPrev(input, 1), input[1]) == UbxSync;
  }

  /** The UBX reader, called after the sync pair of a complete frame, renders the whole
      frame and consumes the rest of it. */
  lemma {:induction false} UbxReadFrame(f: seq<byte>, rest: seq<byte>)
    requires IsUbxFrame(f)
    ensures UbxRead((f + rest)[2..]) == Read(Render(f), |f| - 2)
  {
    var tail, h, p := (f + rest)[2..], f[..6], f[6..];
    FrameTail(f, rest);
    UbxReadOf(tail, h, p);
    RenderAppend(h, p);
  }

  /** Where the header and the payload of a complete frame sit after its sync pair. */
  lemma {:induction false} FrameTail(f: seq<byte>, rest: seq<byte>)
    requires IsUbxFrame(f)
    ensures UbxHeader((f + rest)[2..]) == f[..6]
    ensures PayloadCount(f[..6]) == |f[6..]| && |(f + rest)[2..]| >= 4 + |f[6..]|
    ensures (f + rest)[2..][4..4 + |f[6..]|] == f[6..]
    ensures f[..6] + f[6..] == f
  {
    assert (f + rest)[2..][..4] == f[2..6];
  }

  /** The UBX reader on an input whose header and payload are known. */
  lemma {:induction false} UbxReadOf(tail: seq<byte>, h: seq<byte>, p: seq<byte>)
    requires UbxHeader(tail) == h && PayloadCount(h) == |p| && |tail| >= 4 + |p|
    requires tail[4..4 + |p|] == p
    ensures UbxRead(tail) == Read(Render(h) + Render(p), 4 + |p|)
  {
  }

  /** The mode `getCurrentFlightMode` takes from the rendering of a frame is byte 8. */
  lemma {:induction false} FlightModeOfRendering(f: seq<byte>)
    requires |f| > IndexOfMode
    ensures FlightModeOf(Render(f)) == f[IndexOfMode]
  {
    TokensOfRender(f, IndexOfMode, IndexOfMode + 1);
    var w := TokensBetween(Render(f), IndexOfMode, IndexOfMode + 1);
    assert TokenBytes(w) == [f[IndexOfMode]];
    assert TokenBytes(w)[0] == TokenByte(w[0]);
  }

  /** The header bytes of a CFG-NAV5 response render as the text the poll looks for. */
  lemma {:induction false} Nav5HeaderRendering()
    ensures Render(Nav5Header) == Nav5ResponseHeader + " "
  {
    RenderPair(0xB5, 0x62, "B5", "62", "B5 62 ");
    RenderPair(0x06, 0x24, "6", "24", "6 24 ");
    RenderPair(0x24, 0x00, "24", "0", "24 0 ");
    RenderThree([0xB5, 0x62], [0x06, 0x24], [0x24, 0x00], "B5 62 ", "6 24 ", "24 0 ");
    Nav5HeaderPieces();
  }

  lemma {:induction false} Nav5HeaderPieces()
    ensures [0xB5, 0x62] + [0x06, 0x24] + [0x24, 0x00] == Nav5Header
    ensures "B5 62 " + "6 24 " + "24 0 " == Nav5ResponseHeader + " "
  {
  }

  /** The ACK-ACK frame renders as the text the setter looks for. */
  lemma {:induction false} AckRendering()
    ensures Render(AckFrame) == ExpectedAck
  {
    RenderPair(0xB5, 0x62, "B5", "62", "B5 62 ");
    RenderPair(0x05, 0x01, "5", "1", "5 1 ");
    RenderPair(0x02, 0x00, "2", "0", "2 0 ");
    RenderPair(0x06, 0x24, "6", "24", "6 24 ");
    RenderPair(0x32, 0x5B, "32", "5B", "32 5B ");
    RenderThree([0xB5, 0x62], [0x05, 0x01], [0x02, 0x00], "B5 62 ", "5 1 ", "2 0 ");
    RenderJoin([0x06, 0x24], [0x32, 0x5B], "6 24 ", "32 5B ");
    RenderJoin([0xB5, 0x62] + [0x05, 0x01] + [0x02, 0x00], [0x06, 0x24] + [0x32, 0x5B],
               "B5 62 " + "5 1 " + "2 0 ", "6 24 " + "32 5B ");
    AckPieces();
  }

  lemma {:induction false} AckPieces()
    ensures [0xB5, 0x62] + [0x05, 0x01] + [0x02, 0x00] + ([0x06, 0x24] + [0x32, 0x5B]) == AckFrame
    ensures "B5 62 " + "5 1 " + "2 0 " + ("6 24 " + "32 5B ") == ExpectedAck
  {
  }

  /** The ACK-ACK frame is a complete UBX frame whose checksum verifies. */
  lemma {:induction false} AckFrameValid()
    ensures IsUbxFrame(AckFrame) && ChecksumValid(AckFrame)
  {
    AckFrameChecksum();
    WithChecksumIsValid([0xB5, 0x62, 0x05, 0x01, 0x02, 0x00, 0x06, 0x24, 0x00, 0x00]);
  }

  /** Renderings of two parts join into the rendering of the whole. */
  lemma {:induction false} RenderJoin(a: seq<byte>, b: seq<byte>, ta: string, tb: string)
    requires Render(a) == ta && Render(b) == tb
    ensures Render(a + b) == ta + tb
  {
    RenderAppend(a, b);
  }

  /** Renderings of three parts join into the rendering of the whole. */
  lemma {:induction false} RenderThree(a: seq<byte>, b: seq<byte>, c: seq<byte>, ta: string, tb: string, tc: string)
    requires Render(a) == ta && Render(b) == tb && Render(c) == tc
    ensures Render(a + b + c) == ta + tb + tc
  {
    RenderJoin(a, b, ta, tb);
    RenderJoin(a + b, c, ta + tb, tc);
  }

  /** Two bytes render as their tokens, each followed by a space. */
  lemma {:induction false} RenderPair(x: byte, y: byte, tx: string, ty: string, t: string)
    requires HexToken(x) == tx && HexToken(y) == ty && t == tx + " " + ty + " "
    ensures Render([x, y]) == t
  {
    RenderPush([], x);
    RenderPush([x], y);
    assert [] + [x] == [x] && [x] + [y] == [x, y];
  }

  /** When the receiver's ACK-ACK is the next message, the setter reports success. */
  lemma {:induction false} AckAccepted(rest: seq<byte>)
    ensures FirstMatch(AckFrame + rest, ExpectedAck) == Some(ExpectedAck)
  {
    AckRendering();
    AckFrameValid();
    UbxFrameRoundTrip(AckFrame, rest);
    assert OccursAt(ExpectedAck, ExpectedAck, 0);
    FirstMatchContains(AckFrame + rest, ExpectedAck);
  }

  /** When a CFG-NAV5 frame is the next message, the poll takes the mode from its byte 8:
      the byte the setter writes the mode into. */
  lemma {:induction false} PolledModeIsByte8(f: seq<byte>, rest: seq<byte>)
    requires IsUbxFrame(f) && f[..6] == Nav5Header
    ensures |f| == Nav5FrameLength
    ensures FirstMatch(f + rest, Nav5ResponseHeader) == Some(Render(f))
    ensures FlightModeOf(Render(f)) == f[IndexOfMode]
  {
    assert f[4] == Nav5Header[4] && f[5] == Nav5Header[5];
    UbxFrameRoundTrip(f, rest);
    Nav5HeaderRendering();
    assert f[..6] + f[6..] == f;
    RenderAppend(f[..6], f[6..]);
    assert OccursAt(Render(f), Nav5ResponseHeader, 0);
    FirstMatchContains(f + rest, Nav5ResponseHeader);
    FlightModeOfRendering(f);
  }

  /** The template starts with the CFG-NAV5 header. */
  lemma {:induction false} TemplateHeader()
    ensures |Nav5Template| == Nav5FrameLength
    ensures Nav5Template[..6] == Nav5Header
  {
  }

  /** Setting a mode and polling it back: when the response to the poll carries the
      frame the setter sent, `getCurrentFlightMode` returns the mode that was set. */
  lemma {:induction false} FlightModeRoundTrip(mode: byte, rest: seq<byte>)
    requires mode <= MaxValidMode
    ensures var f := FlightModeFrame(mode);
            FirstMatch(f + rest, Nav5ResponseHeader) == Some(Render(f)) &&
            FlightModeOf(Render(f)) == mode
  {
    var f := FlightModeFrame(mode);
    FlightModeFrameIs(mode);
    TemplateHeader();
    assert f[..6] == Nav5Template[..6];
    PolledModeIsByte8(f, rest);
  }
}
