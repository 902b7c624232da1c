/** The UBX checksum, written the same way in GNSSComm.cpp and NMEAParser.cpp
    (`appendChecksum`): two 8-bit accumulators run over the frame from the class byte
    (index 2) up to, but not including, the two checksum slots at the end; CK_A adds
    each byte, CK_B adds each new CK_A, both wrapping modulo 256; the results are
    written into the last two bytes of the frame. This is the 8-bit Fletcher checksum
    of the u-blox UBX protocol. */
module UbxChecksum {
  import opened Arduino

  /** CK_A after the bytes of `s`, wrapping as the `byte` accumulator does. */
  function CkA(s: seq<byte>): byte
  {
    if s == [] then 0 else (CkA(s[..|s| - 1]) + s[|s| - 1]) % 256
  }

  /** CK_B after the bytes of `s`: each step adds the CK_A of the bytes so far. */
  function CkB(s: seq<byte>): byte
  {
    if s == [] then 0 else (CkB(s[..|s| - 1]) + CkA(s)) % 256
  }

  /** Reference definition: the plain sum of the bytes. */
  function Sum(s: seq<byte>): int
  {
    if s == [] then 0 else s[0] + Sum(s[1..])
  }

  /** Reference definition: the sum in which the byte at position j is counted
      |s| - j times, once in each CK_A that follows it. */
  function WeightedSum(s: seq<byte>): int
  {
    if s == [] then 0 else |s| * s[0] + WeightedSum(s[1..])
  }

  lemma {:induction false} SumAppend(s: seq<byte>, x: byte)
    ensures Sum(s + [x]) == Sum(s) + x
  {
    if s != [] {
      assert (s + [x])[1..] == s[1..] + [x];
      SumAppend(s[1..], x);
    }
  }

  lemma {:induction false} WeightedSumAppend(s: seq<byte>, x: byte)
    ensures WeightedSum(s + [x]) == WeightedSum(s) + Sum(s + [x])
  {
    if s == [] {
      assert s + [x] == [x];
    } else {
      assert (s + [x])[1..] == s[1..] + [x];
      WeightedSumAppend(s[1..], x);
    }
  }

  /** Adding residues modulo 256 is adding modulo 256. */
  lemma {:induction false} ModAdd(a: int, b: int)
    ensures (a % 256 + b % 256) % 256 == (a + b) % 256
  {
    var k := a / 256 + b / 256;
    assert a + b == 256 * k + (a % 256 + b % 256);
    ModShift(k, a % 256 + b % 256);
  }

  lemma {:induction false} ModShift(k: int, r: int)
    ensures (256 * k + r) % 256 == r % 256
  {
  }

  /** CK_A is the byte sum modulo 256. */
  lemma {:induction false} CkAIsSumMod(s: seq<byte>)
    ensures CkA(s) == Sum(s) % 256
  {
    if s != [] {
      var p, x := s[..|s| - 1], s[|s| - 1];
      assert s == p + [x];
      CkAIsSumMod(p);
      SumAppend(p, x);
      ModAdd(Sum(p), x);
      assert x % 256 == x;
      assert CkA(s) == (Sum(p) % 256 + x) % 256;
    }
  }

  /** CK_B is the weighted byte sum modulo 256. */
  lemma {:induction false} CkBIsWeightedSumMod(s: seq<byte>)
    ensures CkB(s) == WeightedSum(s) % 256
  {
    if s != [] {
      var p := s[..|s| - 1];
      assert s == p + [s[|s| - 1]];
      CkBIsWeightedSumMod(p);
      CkAIsSumMod(s);
      WeightedSumAppend(p, s[|s| - 1]);
      ModAdd(WeightedSum(p), Sum(s));
    }
  }

  /** The bytes `appendChecksum(msg, n)` sums: indices 2 up to n - 2 (none when n < 4). */
  function ChecksumRange(s: seq<byte>, n: int): seq<byte>
    requires 2 <= n <= |s|
  {
    if n >= 4 then s[2..n - 2] else []
  }

  /** The array contents after `appendChecksum(msg, n)`. */
  function WithChecksum(s: seq<byte>, n: int): (r: seq<byte>)
    requires 2 <= n <= |s|
    ensures |r| == |s|
  {
    var body := ChecksumRange(s, n);
    s[..n - 2] + [CkA(body), CkB(body)] + s[n..]
  }

  /** A frame whose last two bytes hold the checksum of bytes 2 up to the slots. */
  predicate ChecksumValid(f: seq<byte>)
  {
    |f| >= 4 && f[|f| - 2] == CkA(f[2..|f| - 2]) && f[|f| - 1] == CkB(f[2..|f| - 2])
  }

  /** What `appendChecksum(msg, n)` writes: byte n - 2 becomes the byte sum of
      indices 2 up to n - 2 modulo 256, byte n - 1 the weighted sum modulo 256, and no
      other byte changes. */
  lemma {:induction false} AppendChecksumWrites(s: seq<byte>, n: int)
    requires 2 <= n <= |s|
    ensures WithChecksum(s, n)[n - 2] == Sum(ChecksumRange(s, n)) % 256
    ensures WithChecksum(s, n)[n - 1] == WeightedSum(ChecksumRange(s, n)) % 256
    ensures forall i :: 0 <= i < |s| && i != n - 2 && i != n - 1 ==> WithChecksum(s, n)[i] == s[i]
  {
    CkAIsSumMod(ChecksumRange(s, n));
    CkBIsWeightedSumMod(ChecksumRange(s, n));
  }

  /** The checksum does not read the two sync bytes nor the old contents of its own
      slots: frames that agree elsewhere agree, from index 2 on, after checksumming. */
  lemma {:induction false} ChecksumIgnoresSyncAndSlots(s: seq<byte>, t: seq<byte>, n: int)
    requires 2 <= n <= |s| == |t|
    requires forall i :: 2 <= i < |s| && i != n - 2 && i != n - 1 ==> s[i] == t[i]
    ensures forall i :: 2 <= i < |s| ==> WithChecksum(s, n)[i] == WithChecksum(t, n)[i]
  {
    assert ChecksumRange(s, n) == ChecksumRange(t, n);
  }

  /** Checksumming twice leaves what checksumming once leaves. */
  lemma {:induction false} ChecksumIdempotent(s: seq<byte>, n: int)
    requires 2 <= n <= |s|
    ensures WithChecksum(WithChecksum(s, n), n) == WithChecksum(s, n)
  {
    var once := WithChecksum(s, n);
    if n >= 4 {
      assert ChecksumRange(once, n) == ChecksumRange(s, n);
    }
  }

  /** Checksumming a whole frame makes it verify. */
  lemma {:induction false} WithChecksumIsValid(s: seq<byte>)
    requires |s| >= 4
    ensures ChecksumValid(WithChecksum(s, |s|))
  {
    assert WithChecksum(s, |s|)[2..|s| - 2] == s[2..|s| - 2];
  }

  lemma {:induction false} SumUpdate(s: seq<byte>, k: int, v: byte)
    requires 0 <= k < |s|
    ensures Sum(s[k := v]) == Sum(s) - s[k] + v
  {
    if k > 0 {
      assert s[k := v][1..] == s[1..][k - 1 := v];
      SumUpdate(s[1..], k - 1, v);
    }
  }

  /** Changing any one byte between the sync bytes and the checksum slots of a frame
      that verifies makes it fail to verify. */
  lemma {:induction false} SingleByteChangeDetected(f: seq<byte>, k: int, v: byte)
    requires ChecksumValid(f)
    requires 2 <= k < |f| - 2 && v != f[k]
    ensures !ChecksumValid(f[k := v])
  {
    var body := f[2..|f| - 2];
    var body' := f[k := v][2..|f| - 2];
    assert body' == body[k - 2 := v];
    SumUpdate(body, k - 2, v);
    CkAIsSumMod(body);
    CkAIsSumMod(body');
    var d := v - f[k];
    assert -256 < d < 256 && d != 0;
    assert Sum(body') == Sum(body) + d;
    assert (Sum(body) + d) % 256 != Sum(body) % 256;
  }

  /** `appendChecksum(msg, msgLength)`: the checksum loop runs in place over the array. */
  method AppendChecksum(msg: array<byte>, msgLength: int)
    requires 2 <= msgLength <= msg.Length
    modifies msg
    ensures msg[..] == WithChecksum(old(msg[..]), msgLength)
  {
    var ckA: byte := 0;
    var ckB: byte := 0;
    var i := 2;
    while i < msgLength - 2
      invariant 2 <= i <= Max(2, msgLength - 2)
      invariant ckA == CkA(msg[2..i]) && ckB == CkB(msg[2..i])
    {
      assert msg[2..i + 1][..i - 2] == msg[2..i];
      ckA := (ckA + msg[i]) % 256;
      ckB := (ckB + ckA) % 256;
      i := i + 1;
    }
    ghost var before := msg[..];
    assert ChecksumRange(before, msgLength) == msg[2..i];
    msg[msgLength - 2] := ckA;
    msg[msgLength - 1] := ckB;
  }

  /** The CFG-NAV5 poll request of `getCurrentFlightMode` carries the checksum 2A 84. */
  lemma {:induction false} PollFrameChecksum()
    ensures WithChecksum([0xB5, 0x62, 0x06, 0x24, 0x00, 0x00, 0x00, 0x00], 8)
            == [0xB5, 0x62, 0x06, 0x24, 0x00, 0x00, 0x2A, 0x84]
  {
    var frame: seq<byte> := [0xB5, 0x62, 0x06, 0x24, 0x00, 0x00, 0x00, 0x00];
    var body: seq<byte> := [0x06, 0x24, 0x00, 0x00];
    assert ChecksumRange(frame, 8) == body;
    assert body[..3] == [0x06, 0x24, 0x00] && body[..3][..2] == [0x06, 0x24] && body[..3][..2][..1] == [0x06];
    assert CkA([0x06]) == 0x06 && CkB([0x06]) == 0x06;
    assert CkA([0x06, 0x24]) == 0x2A && CkB([0x06, 0x24]) == 0x30;
    assert CkA([0x06, 0x24, 0x00]) == 0x2A && CkB([0x06, 0x24, 0x00]) == 0x5A;
    assert CkA(body) == 0x2A && CkB(body) == 0x84;
  }

  /** An ACK-ACK for CFG-NAV5 (class 05, id 01, payload 06 24) carries the checksum 32 5B. */
  lemma {:induction false} AckFrameChecksum()
    ensures WithChecksum([0xB5, 0x62, 0x05, 0x01, 0x02, 0x00, 0x06, 0x24, 0x00, 0x00], 10)
            == [0xB5, 0x62, 0x05, 0x01, 0x02, 0x00, 0x06, 0x24, 0x32, 0x5B]
  {
    var frame: seq<byte> := [0xB5, 0x62, 0x05, 0x01, 0x02, 0x00, 0x06, 0x24, 0x00, 0x00];
    var body: seq<byte> := [0x05, 0x01, 0x02, 0x00, 0x06, 0x24];
    assert ChecksumRange(frame, 10) == body;
    assert [0x05, 0x01][..1] == [0x05];
    assert CkA([0x05]) == 0x05 && CkB([0x05]) == 0x05;
    assert CkA([0x05, 0x01]) == 0x06 && CkB([0x05, 0x01]) == 0x0B;
    assert [0x05, 0x01, 0x02][..2] == [0x05, 0x01];
    assert CkA([0x05, 0x01, 0x02]) == 0x08 && CkB([0x05, 0x01, 0x02]) == 0x13;
    assert [0x05, 0x01, 0x02, 0x00][..3] == [0x05, 0x01, 0x02];
    assert CkA([0x05, 0x01, 0x02, 0x00]) == 0x08 && CkB([0x05, 0x01, 0x02, 0x00]) == 0x1B;
    assert body[..5] == [0x05, 0x01, 0x02, 0x00, 0x06] && body[..5][..4] == [0x05, 0x01, 0x02, 0x00];
    assert CkA(body[..5]) == 0x0E && CkB(body[..5]) == 0x29;
    assert CkA(body) == 0x32 && CkB(body) == 0x5B;
  }
}
