/** GNSSComm.cpp: the message layer between the tracker and the u-blox receiver.
    The receiver's register stream is a finite sequence of bytes here; a read that
    would wait for more bytes until its timeout instead finds the input exhausted.
    Every reader returns the text it built and how many bytes it took from the input,
    so that a caller can go on reading after them. */
module GNSSComm {
  import opened Arduino
  import opened UbxChecksum

  datatype Option<T> = None | Some(value: T)

  /** The text a reader returns and the number of input bytes it consumed. */
  datatype Read = Read(text: string, used: nat)

  const MuLowercase: byte := 0xB5
  const BLowercase: byte := 0x62
  const DollarSign: byte := 0x24
  const GUppercase: byte := 0x47
  const PUppercase: byte := 0x50
  /** The byte the receiver sends when it has no data ready. */
  const BufferChar: byte := 0xFF
  const NullChar: byte := 0x00
  const CR: byte := 0x0D
  const LF: byte := 0x0A
  const NoMessage: string := "No message."

  // ---------------------------------------------------------------------------
  // consumeBuffer

  predicate IsPadding(b: byte)
  {
    b == BufferChar || b == NullChar
  }

  /** `consumeBuffer`: skips the padding and NUL bytes and returns the first other byte.
      The source polls until one comes; here the input may end first. */
  method ConsumeBuffer(input: seq<byte>) returns (c: Option<byte>, used: nat)
    ensures used <= |input|
    ensures c.None? ==> used == |input| && forall i :: 0 <= i < |input| ==> IsPadding(input[i])
    ensures c.Some? ==> 1 <= used && c.value == input[used - 1] && !IsPadding(c.value)
    ensures c.Some? ==> forall i :: 0 <= i < used - 1 ==> IsPadding(input[i])
  {
    used := 0;
    while used < |input|
      invariant used <= |input|
      invariant forall i :: 0 <= i < used ==> IsPadding(input[i])
    {
      var b := input[used];
      used := used + 1;
      if !IsPadding(b) {
        return Some(b), used;
      }
    }
    return None, used;
  }

  // ---------------------------------------------------------------------------
  // Hexadecimal rendering: `String(b, HEX)` followed by `toUpperCase()`

  /** An upper-case hexadecimal digit. */
  function HexDigit(d: int): char
    requires 0 <= d < 16
  {
    if d < 10 then ('0' as int + d) as char else ('A' as int + d - 10) as char
  }

  /** A hexadecimal digit reads back as its value, and is neither a sign nor white space. */
  lemma {:induction false} HexDigitValue(d: int)
    requires 0 <= d < 16
    ensures DigitValue(HexDigit(d)) == d && IsDigitIn(HexDigit(d), 16)
    ensures !IsSpace(HexDigit(d)) && HexDigit(d) != '-' && HexDigit(d) != '+' && HexDigit(d) != ' '
  {
  }

  /** A byte in upper-case hexadecimal without leading zero: "0" to "F", "10" to "FF". */
  function HexToken(b: byte): (t: string)
  {
    if b < 16 then [HexDigit(b)] else [HexDigit(b / 16), HexDigit(b % 16)]
  }

  /** The text `readUBXMessageFromI2C` builds from bytes: each token followed by a space. */
  function Render(bs: seq<byte>): string
  {
    if bs == [] then "" else Render(bs[..|bs| - 1]) + HexToken(bs[|bs| - 1]) + " "
  }

  lemma {:induction false} RenderAppend(a: seq<byte>, b: seq<byte>)
    ensures Render(a + b) == Render(a) + Render(b)
    decreases |b|
  {
    if b == [] {
      assert a + b == a;
    } else {
      var p := b[..|b| - 1];
      assert (a + b)[..|a + b| - 1] == a + p;
      RenderAppend(a, p);
    }
  }

  /** Rendering one more byte appends its token and a space. */
  lemma {:induction false} RenderSnoc(s: seq<byte>, i: int)
    requires 0 <= i < |s|
    ensures Render(s[..i + 1]) == Render(s[..i]) + HexToken(s[i]) + " "
  {
    assert s[..i + 1][..i] == s[..i];
  }

  /** Token k of the rendering of `bs` starts where the rendering of the first k bytes
      ends and is followed by a space. */
  lemma {:induction false} RenderAt(bs: seq<byte>, k: int)
    requires 0 <= k < |bs|
    ensures var cur, tok := |Render(bs[..k])|, HexToken(bs[k]);
            |Render(bs[..k + 1])| == cur + |tok| + 1 && cur + |tok| < |Render(bs)| &&
            Render(bs)[cur + |tok|] == ' ' &&
            forall i :: 0 <= i < |tok| ==> Render(bs)[cur + i] == tok[i] && tok[i] != ' '
  {
    HexTokenRoundTrip(bs[k]);
    assert bs[..k] + [bs[k]] == bs[..k + 1];
    assert bs[..k + 1] + bs[k + 1..] == bs;
    RenderAppend(bs[..k], [bs[k]]);
    RenderAppend(bs[..k + 1], bs[k + 1..]);
  }

  // ---------------------------------------------------------------------------
  // Token extraction: getMessageBytesFromString

  /** One space-separated token as `getMessageBytesFromString` reads it: trimmed, cut to
      four characters by `toCharArray(charBuf, 5)`, parsed by `strtol` in base 16 and
      stored into a byte, which keeps the value modulo 256. */
  function TokenByte(token: string): byte
  {
    var t := Trim(token);
    StrtolHex(Slice(t, 0, Min(4, |t|))) % 256
  }

  /** A rendered token reads back as the byte it renders. */
  lemma {:induction false} HexTokenRoundTrip(b: byte)
    ensures TokenByte(HexToken(b)) == b
    ensures forall i :: 0 <= i < |HexToken(b)| ==> HexToken(b)[i] != ' '
  {
    var t := HexToken(b);
    if b < 16 {
      HexDigitValue(b);
    } else {
      HexDigitValue(b / 16);
      HexDigitValue(b % 16);
    }
    TrimUnspaced(t);
    SliceIsSlice(t, 0, |t|);
    assert t[0..|t|] == t;
    assert SpacesFrom(t, 0) == 0 && AfterSign(t, 0) == 0 && AfterHexPrefix(t, 0) == 0;
    if b < 16 {
      assert DigitsFrom(t, 0, 16) == 1;
      assert NumeralIn(t, 0, 1, 16) == b;
    } else {
      assert DigitsFrom(t, 1, 16) == 1;
      assert DigitsFrom(t, 0, 16) == 2;
      assert NumeralIn(t, 0, 1, 16) == b / 16;
      assert NumeralIn(t, 0, 2, 16) == b;
    }
    assert StrtolHex(t) == b;
  }

  /** The tokens the loop of `getMessageBytesFromString` stores into `buf`, in order,
      from string index `cur` and token count `byteIndex` on. A token that has no space
      after it runs to the end of the String, and the next search starts again at 0,
      as the source's `indexOfNextSpace + 1` does with -1. */
  function ScanTokens(msg: string, cur: nat, byteIndex: int, start: int, stop: int): seq<string>
    decreases stop - byteIndex
  {
    if byteIndex >= stop || cur >= |msg| then []
    else
      (if byteIndex >= start then [TokenFrom(msg, cur)] else [])
        + ScanTokens(msg, NextSpace(msg, cur) + 1, byteIndex + 1, start, stop)
  }

  /** `msg.indexOf(' ', cur)`: where the token starting at `cur` ends, or -1. */
  function NextSpace(msg: string, cur: nat): (r: int)
    ensures r >= -1
  {
    IndexOfChar(msg, ' ', cur)
  }

  /** `msg.substring(cur, indexOfNextSpace)`: the token starting at `cur`, which runs to
      the end of the String when no space follows. */
  function TokenFrom(msg: string, cur: nat): string
  {
    Substring(msg, cur, NextSpace(msg, cur))
  }

  /** Tokens `start` up to `stop` of a space-separated rendering. */
  function TokensBetween(msg: string, start: int, stop: int): seq<string>
  {
    ScanTokens(msg, 0, 0, start, stop)
  }

  /** The values of tokens. */
  function TokenBytes(ts: seq<string>): (r: seq<byte>)
    ensures |r| == |ts|
  {
    if ts == [] then [] else [TokenByte(ts[0])] + TokenBytes(ts[1..])
  }

  /** The scan from token `byteIndex` on yields at most one token per token left. */
  lemma {:induction false} ScanTokensLength(msg: string, cur: nat, byteIndex: int, start: int, stop: int)
    requires 0 <= start && 0 <= byteIndex
    decreases stop - byteIndex
    ensures |ScanTokens(msg, cur, byteIndex, start, stop)| <= Max(0, stop - Max(byteIndex, start))
  {
    if byteIndex < stop && cur < |msg| {
      ScanTokensLength(msg, NextSpace(msg, cur) + 1, byteIndex + 1, start, stop);
    }
  }

  /** One turn of the loop: the tokens stored so far followed by the rest of the scan
      are the tokens of the whole scan. */
  lemma {:induction false} ScanTokensAdvance(w: seq<string>, done: seq<string>, msg: string, cur: nat, byteIndex: int, start: int, stop: int)
    requires w == done + ScanTokens(msg, cur, byteIndex, start, stop)
    requires byteIndex < stop && cur < |msg|
    ensures byteIndex >= start ==>
              w == (done + [TokenFrom(msg, cur)]) + ScanTokens(msg, NextSpace(msg, cur) + 1, byteIndex + 1, start, stop)
    ensures byteIndex < start ==> w == done + ScanTokens(msg, NextSpace(msg, cur) + 1, byteIndex + 1, start, stop)
  {
    ScanTokensStep(msg, cur, byteIndex, start, stop);
    TakeOne(w, done, ScanTokens(msg, cur, byteIndex, start, stop), byteIndex >= start, TokenFrom(msg, cur),
            ScanTokens(msg, NextSpace(msg, cur) + 1, byteIndex + 1, start, stop));
  }

  lemma {:induction false} ScanTokensStep(msg: string, cur: nat, byteIndex: int, start: int, stop: int)
    requires byteIndex < stop && cur < |msg|
    ensures ScanTokens(msg, cur, byteIndex, start, stop)
            == (if byteIndex >= start then [TokenFrom(msg, cur)] else [])
               + ScanTokens(msg, NextSpace(msg, cur) + 1, byteIndex + 1, start, stop)
  {
  }

  /** Moving the next element of a sequence over to the part already taken. */
  lemma {:induction false} TakeOne<T>(w: seq<T>, done: seq<T>, s: seq<T>, c: bool, x: T, rest: seq<T>)
    requires w == done + s && s == (if c then [x] else []) + rest
    ensures c ==> w == (done + [x]) + rest
    ensures !c ==> w == done + rest
  {
    if c {
      assert done + ([x] + rest) == (done + [x]) + rest;
    } else {
      assert [] + rest == rest;
    }
  }

  /** One turn of the loop of `getMessageBytesFromString`. */
  /** Writing the value of one more token after those already stored keeps the stored
      prefix right and the rest of the buffer as it was. */
  lemma {:induction false} StoreStep(b: seq<byte>, done: seq<string>, tok: string, orig: seq<byte>)
    requires |done| < |b| == |orig|
    requires forall i :: 0 <= i < |done| ==> b[i] == TokenByte(done[i])
    requires forall i :: |done| <= i < |b| ==> b[i] == orig[i]
    ensures var b', d' := b[|done| := TokenByte(tok)], done + [tok];
            (forall i :: 0 <= i < |d'| ==> b'[i] == TokenByte(d'[i])) &&
            forall i :: |d'| <= i < |b'| ==> b'[i] == orig[i]
  {
    var b', d' := b[|done| := TokenByte(tok)], done + [tok];
    forall i | 0 <= i < |d'|
      ensures b'[i] == TokenByte(d'[i])
    {
      if i < |done| {
        assert d'[i] == done[i];
      }
    }
  }

  method StoreToken(msg: string, buf: array<byte>, cur: nat, byteIndex: int, arrayIndex: int, start: int, stop: int,
                    ghost w: seq<string>, ghost done: seq<string>, ghost orig: seq<byte>)
    returns (next: nat, nextArrayIndex: int, ghost done': seq<string>)
    requires byteIndex < stop && cur < |msg| && arrayIndex == |done| && |w| <= buf.Length
    requires w == done + ScanTokens(msg, cur, byteIndex, start, stop)
    requires forall i :: 0 <= i < |done| ==> buf[i] == TokenByte(done[i])
    requires |orig| == buf.Length && forall i :: |done| <= i < buf.Length ==> buf[i] == orig[i]
    modifies buf
    ensures nextArrayIndex == |done'|
    ensures w == done' + ScanTokens(msg, next, byteIndex + 1, start, stop)
    ensures forall i :: 0 <= i < |done'| ==> buf[i] == TokenByte(done'[i])
    ensures forall i :: |done'| <= i < buf.Length ==> buf[i] == orig[i]
  {
    var indexOfNextSpace := NextSpace(msg, cur);
    var currentSubstring := TokenFrom(msg, cur);
    ScanTokensAdvance(w, done, msg, cur, byteIndex, start, stop);
    done' := done;
    nextArrayIndex := arrayIndex;
    if byteIndex >= start {
      var value := TokenByte(currentSubstring);
      ghost var before := buf[..];
      buf[arrayIndex] := value;
      assert buf[..] == before[arrayIndex := value];
      StoreStep(before, done, currentSubstring, orig);
      done' := done + [currentSubstring];
      nextArrayIndex := arrayIndex + 1;
    }
    next := indexOfNextSpace + 1;
  }

  /** `getMessageBytesFromString(msg, buf, start, stop)`: writes the values of tokens
      start up to stop into `buf` from index 0 on and leaves the rest of `buf` as it was. */
  method GetMessageBytesFromString(msg: string, buf: array<byte>, startByteIndex: int, stopByteIndex: int)
    requires 0 <= startByteIndex && stopByteIndex - startByteIndex <= buf.Length
    modifies buf
    ensures var w := TokensBetween(msg, startByteIndex, stopByteIndex);
            |w| <= buf.Length &&
            (forall i :: 0 <= i < |w| ==> buf[i] == TokenByte(w[i])) &&
            forall i :: |w| <= i < buf.Length ==> buf[i] == old(buf[i])
  {
    ghost var w := TokensBetween(msg, startByteIndex, stopByteIndex);
    ScanTokensLength(msg, 0, 0, startByteIndex, stopByteIndex);
    ghost var done: seq<string> := [];
    ghost var orig := buf[..];
    var currentStringIndex: nat := 0;
    var currentByteIndex := 0;
    var currentArrayIndex := 0;
    while currentByteIndex < stopByteIndex && currentStringIndex < |msg|
      invariant 0 <= currentByteIndex && currentArrayIndex == |done| && |w| <= buf.Length
      invariant w == done + ScanTokens(msg, currentStringIndex, currentByteIndex, startByteIndex, stopByteIndex)
      invariant forall i :: 0 <= i < |done| ==> buf[i] == TokenByte(done[i])
      invariant forall i :: |done| <= i < buf.Length ==> buf[i] == orig[i]
      decreases stopByteIndex - currentByteIndex
    {
      currentStringIndex, currentArrayIndex, done := StoreToken(msg, buf, currentStringIndex, currentByteIndex, currentArrayIndex, startByteIndex, stopByteIndex, w, done, orig);
      currentByteIndex := currentByteIndex + 1;
    }
    assert done == w;
  }

  /** A token followed by a space at `cur` is what the scan cuts out there. */
  lemma {:induction false} TokenAt(msg: string, cur: nat, tok: string)
    requires cur + |tok| < |msg| && msg[cur + |tok|] == ' '
    requires forall i :: 0 <= i < |tok| ==> msg[cur + i] == tok[i] && tok[i] != ' '
    ensures NextSpace(msg, cur) == cur + |tok|
    ensures TokenFrom(msg, cur) == tok
  {
    NextSpaceAfterToken(msg, cur, tok);
    SubstringIs(msg, cur, cur + |tok|);
    assert msg[cur..cur + |tok|] == tok;
  }

  /** The space that ends a token is the next space from its start. */
  lemma {:induction false} NextSpaceAfterToken(msg: string, cur: nat, tok: string)
    requires cur + |tok| < |msg| && msg[cur + |tok|] == ' '
    requires forall i :: 0 <= i < |tok| ==> msg[cur + i] == tok[i] && tok[i] != ' '
    ensures NextSpace(msg, cur) == cur + |tok|
  {
    IndexOfCharIsFirst(msg, ' ', cur);
    forall p | cur <= p < cur + |tok| ensures msg[p] != ' ' {
      assert msg[cur + (p - cur)] == tok[p - cur];
    }
  }

  /** The tokens that render the bytes of `bs`. */
  function HexTokens(bs: seq<byte>): (ts: seq<string>)
    ensures |ts| == |bs|
  {
    if bs == [] then [] else [HexToken(bs[0])] + HexTokens(bs[1..])
  }

  /** Reading back rendered tokens gives the bytes. */
  lemma {:induction false} HexTokensRoundTrip(bs: seq<byte>)
    ensures TokenBytes(HexTokens(bs)) == bs
  {
    if bs != [] {
      HexTokenRoundTrip(bs[0]);
      HexTokensRoundTrip(bs[1..]);
      assert ([HexToken(bs[0])] + HexTokens(bs[1..]))[1..] == HexTokens(bs[1..]);
    }
  }

  /** Scanning a rendering from the start of its token k on gives back the rendered tokens. */
  lemma {:induction false} ScanRender(bs: seq<byte>, k: nat, start: int, stop: int)
    requires 0 <= start <= stop && k <= |bs| && k <= stop
    ensures ScanTokens(Render(bs), |Render(bs[..k])|, k, start, stop)
            == HexTokens(bs[Min(Max(start, k), |bs|)..Min(stop, |bs|)])
    decreases stop - k
  {
    if k == |bs| {
      assert bs[..k] == bs;
    } else if k < stop {
      ScanRenderStep(bs, k, start, stop);
      ScanRender(bs, k + 1, start, stop);
      if k >= start {
        var rest := bs[k + 1..Min(stop, |bs|)];
        SliceCons(bs, k, Min(stop, |bs|));
        assert ([bs[k]] + rest)[1..] == rest;
      }
    }
  }

  /** The scan of a rendering takes token k whole and moves on to the start of token k + 1. */
  lemma {:induction false} ScanRenderStep(bs: seq<byte>, k: nat, start: int, stop: int)
    requires k < |bs| && k < stop
    ensures ScanTokens(Render(bs), |Render(bs[..k])|, k, start, stop)
            == (if k >= start then [HexToken(bs[k])] else [])
               + ScanTokens(Render(bs), |Render(bs[..k + 1])|, k + 1, start, stop)
  {
    RenderAt(bs, k);
    ScanTokenThen(Render(bs), |Render(bs[..k])|, HexToken(bs[k]), |Render(bs[..k + 1])|, k, start, stop);
  }

  /** Where the token `tok` followed by a space starts at `cur`, the scan takes `tok`
      and goes on after the space. */
  lemma {:induction false} ScanTokenThen(msg: string, cur: nat, tok: string, next: nat, byteIndex: int, start: int, stop: int)
    requires byteIndex < stop && cur + |tok| < |msg| && msg[cur + |tok|] == ' ' && next == cur + |tok| + 1
    requires forall i :: 0 <= i < |tok| ==> msg[cur + i] == tok[i] && tok[i] != ' '
    ensures ScanTokens(msg, cur, byteIndex, start, stop)
            == (if byteIndex >= start then [tok] else []) + ScanTokens(msg, next, byteIndex + 1, start, stop)
  {
    TokenAt(msg, cur, tok);
    ScanTokensStep(msg, cur, byteIndex, start, stop);
  }

  lemma {:induction false} SliceCons<T>(s: seq<T>, k: int, hi: int)
    requires 0 <= k < hi <= |s|
    ensures s[k..hi] == [s[k]] + s[k + 1..hi]
  {
  }

  /** Reading tokens start up to stop of the rendering of `bs` recovers those bytes. */
  lemma {:induction false} TokensOfRender(bs: seq<byte>, start: int, stop: int)
    requires 0 <= start <= stop
    ensures TokensBetween(Render(bs), start, stop) == HexTokens(bs[Min(start, |bs|)..Min(stop, |bs|)])
    ensures TokenBytes(TokensBetween(Render(bs), start, stop)) == bs[Min(start, |bs|)..Min(stop, |bs|)]
  {
    assert bs[..0] == [];
    ScanRender(bs, 0, start, stop);
    HexTokensRoundTrip(bs[Min(start, |bs|)..Min(stop, |bs|)]);
  }

  // ---------------------------------------------------------------------------
  // readUBXMessageFromI2C

  function Zeros(n: nat): (z: seq<byte>)
    ensures |z| == n && forall i :: 0 <= i < n ==> z[i] == 0
  {
    seq(n, i => 0)
  }

  /** The six header bytes the reader renders: the sync pair it was called after, then
      the next four input bytes; slots the input did not reach keep their initial 0. */
  function UbxHeader(input: seq<byte>): (h: seq<byte>)
    ensures |h| == 6
  {
    [MuLowercase, BLowercase] + (if |input| >= 4 then input[..4] else input + Zeros(4 - |input|))
  }

  /** How many bytes the reader takes after the header: the little-endian length field
      plus the two checksum bytes, computed in a 16-bit `int`; a sum that wraps below
      zero takes nothing. */
  function PayloadCount(h: seq<byte>): nat
    requires |h| == 6
  {
    Max(0, Int16(256 * (h[5] as int) + h[4] as int + 2))
  }

  /** A length field below 32766 is counted as it reads, plus the checksum; from there the
      16-bit sum wraps: `FF FF` counts one byte, and a high byte from 0x80 up to 0xFE
      counts none. */
  lemma {:induction false} PayloadCountWraps(h: seq<byte>)
    requires |h| == 6
    ensures 256 * (h[5] as int) + h[4] as int + 2 < 32768 ==>
              PayloadCount(h) == 256 * (h[5] as int) + h[4] as int + 2
    ensures h[4] == 0xFF && h[5] == 0xFF ==> PayloadCount(h) == 1
    ensures 0x80 <= h[5] < 0xFF ==> PayloadCount(h) == 0
  {
  }

  /** Six bytes holding the sync pair, then the input's first bytes, then zeros where
      the input ran out, are the header `UbxHeader` describes. */
  lemma {:induction false} UbxHeaderIs(h: seq<byte>, input: seq<byte>)
    requires |h| == 6 && h[0] == MuLowercase && h[1] == BLowercase
    requires forall j :: 2 <= j < 2 + Min(4, |input|) ==> h[j] == input[j - 2]
    requires forall j :: 2 + Min(4, |input|) <= j < 6 ==> h[j] == 0
    ensures h == UbxHeader(input)
  {
    var u := UbxHeader(input);
    forall j | 2 <= j < 6
      ensures h[j] == u[j]
    {
      if |input| < 4 && j >= 2 + |input| {
        assert u[j] == Zeros(4 - |input|)[j - 2 - |input|];
      }
    }
  }

  /** What `readUBXMessageFromI2C` returns: the rendered header and as many of the
      announced payload and checksum bytes as the input holds. */
  function UbxRead(input: seq<byte>): (r: Read)
    ensures r.used <= |input|
  {
    var h := UbxHeader(input);
    var taken := Min(4, |input|);
    var n := Min(PayloadCount(h), |input| - taken);
    Read(Render(h) + Render(input[taken..taken + n]), taken + n)
  }

  /** On input that holds the whole frame, the reader renders the sync pair, the four
      remaining header bytes and exactly the announced payload and checksum bytes, and
      takes just those from the input. */
  lemma {:induction false} UbxReadComplete(input: seq<byte>)
    requires |input| >= 4 && |input| >= 4 + PayloadCount(UbxHeader(input))
    ensures var n := 4 + PayloadCount(UbxHeader(input));
            UbxRead(input) == Read(Render([MuLowercase, BLowercase] + input[..n]), n)
  {
    var h := UbxHeader(input);
    var n := 4 + PayloadCount(h);
    assert h == [MuLowercase, BLowercase] + input[..4];
    RenderAppend(h, input[4..n]);
    assert h + input[4..n] == [MuLowercase, BLowercase] + input[..n];
  }

  /** The header loop of `readUBXMessageFromI2C`: fills slots 2 to 5 of the header
      with the next input bytes, as many as the input holds. */
  method ReadUbxHeader(input: seq<byte>) returns (header: seq<byte>, pos: nat)
    ensures header == UbxHeader(input) && pos == Min(4, |input|)
  {
    header := [MuLowercase, BLowercase, 0x00, 0x00, 0x00, 0x00];
    var headerLength := 6;
    var currentHeaderByteIndex := 2;
    pos := 0;
    while currentHeaderByteIndex < headerLength && pos < |input|
      invariant 2 <= currentHeaderByteIndex <= headerLength && pos == currentHeaderByteIndex - 2
      invariant pos <= |input| && |header| == headerLength
      invariant header[0] == MuLowercase && header[1] == BLowercase
      invariant forall j :: 2 <= j < currentHeaderByteIndex ==> header[j] == input[j - 2]
      invariant forall j :: currentHeaderByteIndex <= j < headerLength ==> header[j] == 0
    {
      header := header[currentHeaderByteIndex := input[pos]];
      currentHeaderByteIndex := currentHeaderByteIndex + 1;
      pos := pos + 1;
    }
    UbxHeaderIs(header, input);
  }

  /** The rendering loops of `readUBXMessageFromI2C`: each byte is appended to the
      text as upper-case hexadecimal followed by a space. */
  method AppendRendered(text: string, bs: seq<byte>) returns (r: string)
    ensures r == text + Render(bs)
  {
    r := text;
    for i := 0 to |bs|
      invariant r == text + Render(bs[..i])
    {
      RenderSnoc(bs, i);
      r := r + HexToken(bs[i]) + " ";
    }
    assert bs[..|bs|] == bs;
  }

  method ReadUBXMessageFromI2C(input: seq<byte>) returns (text: string, used: nat)
    ensures Read(text, used) == UbxRead(input)
  {
    var header, pos := ReadUbxHeader(input);
    text := AppendRendered("", header);
    assert text == Render(header);
    var payloadLength: int := Int16(256 * (header[5] as int) + header[4] as int + 2);
    assert Max(0, payloadLength) == PayloadCount(UbxHeader(input));
    var available := Min(Max(0, payloadLength), |input| - pos);
    text := AppendRendered(text, input[pos..pos + available]);
    used := pos + available;
  }

  // ---------------------------------------------------------------------------
  // readNMEAMessageFromI2C

  /** A CR LF pair ends at index k of t. */
  predicate CrLfEndsAt(t: seq<byte>, k: int)
  {
    1 <= k < |t| && t[k - 1] == CR && t[k] == LF
  }

  /** The first index at or after `from` at which a CR LF pair ends, or |t|. */
  function FirstCrLfEnd(t: seq<byte>, from: nat): (k: nat)
    requires 1 <= from <= |t|
    decreases |t| - from
    ensures from <= k <= |t|
    ensures k < |t| ==> CrLfEndsAt(t, k)
    ensures forall j :: from <= j < k ==> !CrLfEndsAt(t, j)
  {
    if from == |t| || CrLfEndsAt(t, from) then from else FirstCrLfEnd(t, from + 1)
  }

  /** The characters of the bytes, carriage returns left out. */
  function DropCR(s: seq<byte>): string
  {
    if s == [] then ""
    else DropCR(s[..|s| - 1]) + (if s[|s| - 1] == CR then "" else [CharOf(s[|s| - 1])])
  }

  /** What `readNMEAMessageFromI2C(typeId)` returns. The window starts as ('$', typeId);
      each step moves the next byte into it and appends the byte leaving its second
      slot unless that byte is a CR. At the first CR LF the reader appends CR LF and
      stops; if the input ends first, the text so far is returned, without the byte
      still held in the window. */
  function NmeaRead(typeId: byte, input: seq<byte>): (r: Read)
    ensures r.used <= |input|
  {
    var t := [typeId] + input;
    var k := FirstCrLfEnd(t, 1);
    if k < |t| then Read("$" + DropCR(t[..k]) + [CharOf(CR), CharOf(LF)], k)
    else Read("$" + DropCR(t[..|t| - 1]), |input|)
  }

  /** No carriage return survives `DropCR`, and it never lengthens its input. */
  lemma {:induction false} DropCRHasNoCR(s: seq<byte>)
    decreases |s|
    ensures |DropCR(s)| <= |s|
    ensures forall i :: 0 <= i < |DropCR(s)| ==> DropCR(s)[i] != CharOf(CR)
  {
    if s != [] {
      DropCRHasNoCR(s[..|s| - 1]);
    }
  }

  /** The NMEA reader's text starts with '$'; it takes input up to the first CR LF
      (counting the pair that the message type byte may begin) and then ends its text
      with CR LF and holds no other CR; without a CR LF it takes the whole input. */
  lemma {:induction false} NmeaReadShape(typeId: byte, input: seq<byte>)
    ensures var r, t := NmeaRead(typeId, input), [typeId] + input;
            |r.text| >= 1 && r.text[0] == '$' &&
            (forall j :: 1 <= j < r.used ==> !CrLfEndsAt(t, j)) &&
            ((exists j :: CrLfEndsAt(t, j)) <==> r.used < |t| && CrLfEndsAt(t, r.used)) &&
            (!(exists j :: CrLfEndsAt(t, j)) ==>
               (r.used == |input| && forall i :: 0 <= i < |r.text| ==> r.text[i] != CharOf(CR))) &&
            (CrLfEndsAt(t, r.used) ==>
               (|r.text| >= 3 && r.text[|r.text| - 2..] == [CharOf(CR), CharOf(LF)] &&
                forall i :: 0 <= i < |r.text| - 2 ==> r.text[i] != CharOf(CR)))
  {
    var t := [typeId] + input;
    var k := FirstCrLfEnd(t, 1);
    if k < |t| {
      DropCRHasNoCR(t[..k]);
    } else {
      DropCRHasNoCR(t[..|t| - 1]);
      assert forall j :: !CrLfEndsAt(t, j);
    }
  }

  method ReadNMEAMessageFromI2C(messageTypeId: byte, input: seq<byte>) returns (text: string, used: nat)
    ensures Read(text, used) == NmeaRead(messageTypeId, input)
  {
    ghost var t := [messageTypeId] + input;
    var b1 := DollarSign;
    var b2 := messageTypeId;
    text := [CharOf(b1)];
    var pos := 0;
    while true
      invariant pos <= |input|
      invariant b2 == t[pos] && b1 == (if pos == 0 then DollarSign else t[pos - 1])
      invariant text == "$" + DropCR(t[..pos])
      invariant forall j :: 1 <= j < pos ==> !CrLfEndsAt(t, j)
      decreases |input| - pos
    {
      if b1 == CR && b2 == LF {
        text := text + [CharOf(b1)] + [CharOf(b2)];
        used := pos;
        assert CrLfEndsAt(t, pos);
        return;
      }
      if pos < |input| {
        b1 := b2;
        assert t[..pos + 1] == t[..pos] + [b1];
        if b1 != CR {
          text := text + [CharOf(b1)];
        }
        b2 := input[pos];
        pos := pos + 1;
      } else {
        used := pos;
        assert t[..|t| - 1] == t[..pos];
        return;
      }
    }
  }

  // ---------------------------------------------------------------------------
  // getMessage: the two-byte sliding-window classifier

  datatype Sync = UbxSync | GnssNmeaSync | VendorNmeaSync | NoSync

  /** The three sync pairs the classifier tests, in the source's order. */
  function Classify(b1: byte, b2: byte): Sync
  {
    if b1 == MuLowercase && b2 == BLowercase then UbxSync
    else if b1 == DollarSign && b2 == GUppercase then GnssNmeaSync
    else if b1 == DollarSign && b2 == PUppercase then VendorNmeaSync
    else NoSync
  }

  /** The first byte of the window when `input[k]` has just entered it; the window
      starts out holding 0. */
  function WindowPrev(input: seq<byte>, k: nat): byte
    requires k <= |input|
  {
    if k == 0 then 0 else input[k - 1]
  }

  predicate SyncAt(input: seq<byte>, k: int)
  {
    0 <= k < |input| && Classify(WindowPrev(input, k), input[k]) != NoSync
  }

  function FirstSync(input: seq<byte>, from: nat): (k: nat)
    requires from <= |input|
    decreases |input| - from
    ensures from <= k <= |input|
    ensures k < |input| ==> SyncAt(input, k)
    ensures forall j :: from <= j < k ==> !SyncAt(input, j)
  {
    if from == |input| || SyncAt(input, from) then from else FirstSync(input, from + 1)
  }

  /** A sync pair with none before it is the first one. */
  lemma {:induction false} FirstSyncIs(input: seq<byte>, from: nat, k: nat)
    requires from <= k < |input| && SyncAt(input, k)
    requires forall j :: from <= j < k ==> !SyncAt(input, j)
    ensures FirstSync(input, from) == k
    decreases k - from
  {
    if from < k {
      FirstSyncIs(input, from + 1, k);
    }
  }

  /** The message read after a sync pair of kind `sync`, from the bytes that follow it. */
  function ReadAfterSync(sync: Sync, rest: seq<byte>): (r: Read)
    requires sync != NoSync
    ensures r.used <= |rest|
  {
    match sync
    case UbxSync => UbxRead(rest)
    case GnssNmeaSync => NmeaRead(GUppercase, rest)
    case _ => NmeaRead(PUppercase, rest)
  }

  /** What `getMessage` returns: the message read after the first sync pair of the
      input, or "No message." when the input ends without one. */
  function MessageRead(input: seq<byte>): (r: Read)
    ensures r.used <= |input|
    ensures |input| > 0 ==> r.used >= 1
  {
    var k := FirstSync(input, 0);
    if k == |input| then Read(NoMessage, |input|)
    else
      var r := ReadAfterSync(Classify(WindowPrev(input, k), input[k]), input[k + 1..]);
      Read(r.text, k + 1 + r.used)
  }

  /** The dispatch of `getMessage` once a sync pair is in the window: a UBX frame after
      "\xb5b", an NMEA sentence after "$G" or "$P". */
  /** A message read after a sync pair starts with "B5" (UBX) or with '$' (NMEA). */
  lemma {:induction false} ReadAfterSyncFirst(sync: Sync, rest: seq<byte>)
    requires sync != NoSync
    ensures var r := ReadAfterSync(sync, rest);
            |r.text| >= 1 && (r.text[0] == 'B' <==> sync == UbxSync) && (r.text[0] == '$' <==> sync != UbxSync)
  {
    if sync == UbxSync {
      var h := UbxHeader(rest);
      RenderAppend([h[0]], h[1..]);
      assert [h[0]] + h[1..] == h;
      assert [h[0]][..0] == [];
      assert Render([h[0]]) == "B5 ";
    } else {
      NmeaReadShape(if sync == GnssNmeaSync then GUppercase else PUppercase, rest);
    }
  }

  /** `getMessage` answers "No message." exactly when no sync pair passes through the
      window. */
  lemma {:induction false} MessageReadNone(input: seq<byte>)
    ensures MessageRead(input) == Read(NoMessage, |input|) <==> forall j :: 0 <= j < |input| ==> !SyncAt(input, j)
  {
    var k := FirstSync(input, 0);
    if k < |input| {
      ReadAfterSyncFirst(Classify(WindowPrev(input, k), input[k]), input[k + 1..]);
      assert NoMessage[0] == 'N';
    }
  }

  method ReadAfterSyncFromI2C(sync: Sync, rest: seq<byte>) returns (text: string, used: nat)
    requires sync != NoSync
    ensures Read(text, used) == ReadAfterSync(sync, rest)
  {
    match sync
    case UbxSync =>
      text, used := ReadUBXMessageFromI2C(rest);
    case GnssNmeaSync =>
      text, used := ReadNMEAMessageFromI2C(GUppercase, rest);
    case _ =>
      text, used := ReadNMEAMessageFromI2C(PUppercase, rest);
  }

  method GetMessage(input: seq<byte>) returns (text: string, used: nat)
    ensures Read(text, used) == MessageRead(input)
  {
    var b1: byte := 0;
    var b2: byte := 0;
    var pos := 0;
    while pos < |input|
      invariant pos <= |input|
      invariant b2 == WindowPrev(input, pos)
      invariant forall j :: 0 <= j < pos ==> !SyncAt(input, j)
    {
      b1 := b2;
      b2 := input[pos];
      pos := pos + 1;
      var sync := Classify(b1, b2);
      if sync != NoSync {
        assert SyncAt(input, pos - 1);
        FirstSyncIs(input, 0, pos - 1);
        var t, u := ReadAfterSyncFromI2C(sync, input[pos..]);
        return t, pos + u;
      }
    }
    return NoMessage, |input|;
  }
}
