/** The wire format of section 5.2 of RFC 6455, bit by bit, and that the parser and the builder keep to it. */
module WebSocketWire {
  import opened WebSocket
  import opened Octets
  import opened Bits

  function Flag(present: bool, bit: Byte): Byte {
    if present then bit else 0x00
  }

  /** The payload length: seven bits, or behind 126 two bytes, or behind 127 eight bytes, most significant first. */
  ghost predicate SpellsLength(b: Bytes, n: nat) {
    && |b| >= 2
    && var short := b[1] & 0x7F;
       if short < 126 then n == short as nat
       else if short == 126 then |b| >= 4 && n == 0x100 * b[2] as nat + b[3] as nat
       else
         && |b| >= 10
         && n == 0x100_0000_0000_0000 * b[2] as nat + 0x1_0000_0000_0000 * b[3] as nat
               + 0x100_0000_0000 * b[4] as nat + 0x1_0000_0000 * b[5] as nat
               + 0x100_0000 * b[6] as nat + 0x1_0000 * b[7] as nat + 0x100 * b[8] as nat + b[9] as nat
  }

  /** Where the payload starts: behind the length, and behind the key if there is one. */
  function PayloadStart(b: Bytes): nat
    requires |b| >= 2
  {
    2 + (if b[1] & 0x7F == 126 then 2 else if b[1] & 0x7F == 127 then 8 else 0) + (if b[1] & 0x80 == 0x80 then 4 else 0)
  }

  /** The i-th byte of the payload at `start`, masked with the key before it or not. */
  function Unmasked(b: Bytes, start: nat, i: nat, masked: bool): Byte
    requires start + i < |b| && (masked ==> start >= 6)
  {
    if masked then b[start + i] ^ b[start - 4 + i % 4] else b[start + i]
  }

  /** The first byte and the mask bit. */
  ghost predicate IsHead(b: Bytes, f: Frame)
    requires |b| >= 2
  {
    && f.opcode < 0x10
    && b[0] == Flag(f.fin, 0x80) | Flag(f.rsv1, 0x40) | Flag(f.rsv2, 0x20) | Flag(f.rsv3, 0x10) | f.opcode
    && (f.masked <==> b[1] & 0x80 == 0x80)
  }

  /** The payload at `start`, masked with the key before it or not. */
  ghost predicate IsPayload(b: Bytes, payload: Bytes, masked: bool, start: nat) {
    && start + |payload| <= |b| && (masked ==> start >= 6)
    && forall i {:trigger payload[i]} :: 0 <= i < |payload| ==> payload[i] == Unmasked(b, start, i, masked)
  }

  /** The first `size` bytes are this frame. */
  ghost predicate IsWire(b: Bytes, size: nat, f: Frame) {
    && |b| >= 2 && |b| >= PayloadStart(b) && SpellsLength(b, |f.payload|)
    && size == PayloadStart(b) + |f.payload|
    && IsHead(b, f) && IsPayload(b, f.payload, f.masked, PayloadStart(b))
  }

  lemma FirstByteIs(b0: Byte, f: Frame)
    requires f.opcode < 0x10
    ensures b0 == Flag(f.fin, 0x80) | Flag(f.rsv1, 0x40) | Flag(f.rsv2, 0x20) | Flag(f.rsv3, 0x10) | f.opcode <==>
      && f.fin == (b0 & 0x80 != 0) && f.rsv1 == (b0 & 0x40 != 0) && f.rsv2 == (b0 & 0x20 != 0) && f.rsv3 == (b0 & 0x10 != 0)
      && f.opcode == b0 & 0x0F
  {
  }

  lemma LowNibble(b0: Byte)
    ensures b0 & 0x0F < 0x10
  {
  }

  lemma MaskBit(b1: Byte)
    ensures b1 & 0x80 != 0 <==> b1 & 0x80 == 0x80
    ensures b1 & 0x7F < 0x80
  {
  }

  lemma StartIsHeader(b: Bytes)
    requires |b| >= 2
    ensures PayloadStart(b) == HeaderSize(b[1])
  {
    MaskBit(b[1]);
  }

  lemma LengthIs(b: Bytes, n: nat)
    requires HasHeader(b)
    ensures SpellsLength(b, n) <==> PayloadLength(b) == n
  {
    MaskBit(b[1]);
    if b[1] & 0x7F == 126 {
      TwoBytes(b);
    } else if b[1] & 0x7F == 127 {
      EightBytes(b);
    }
  }

  lemma NextByte(b: Bytes, count: nat)
    requires 2 + count < |b|
    ensures ReadBigEndian(b, 2, count + 1) == 0x100 * ReadBigEndian(b, 2, count) + b[2 + count] as nat
  {
  }

  lemma TwoBytes(b: Bytes)
    requires |b| >= 4
    ensures ReadBigEndian(b, 2, 2) == 0x100 * b[2] as nat + b[3] as nat
  {
    NextByte(b, 0);
    NextByte(b, 1);
  }

  lemma FourBytes(b: Bytes)
    requires |b| >= 6
    ensures ReadBigEndian(b, 2, 4) ==
      0x100_0000 * b[2] as nat + 0x1_0000 * b[3] as nat + 0x100 * b[4] as nat + b[5] as nat
  {
    TwoBytes(b);
    NextByte(b, 2);
    NextByte(b, 3);
  }

  lemma EightBytes(b: Bytes)
    requires |b| >= 10
    ensures ReadBigEndian(b, 2, 8) ==
      0x100_0000_0000_0000 * b[2] as nat + 0x1_0000_0000_0000 * b[3] as nat
      + 0x100_0000_0000 * b[4] as nat + 0x1_0000_0000 * b[5] as nat
      + 0x100_0000 * b[6] as nat + 0x1_0000 * b[7] as nat + 0x100 * b[8] as nat + b[9] as nat
  {
    FourBytes(b);
    FourMore(b);
  }

  lemma FourMore(b: Bytes)
    requires |b| >= 10
    ensures ReadBigEndian(b, 2, 8) == 0x1_0000_0000 * ReadBigEndian(b, 2, 4)
      + 0x100_0000 * b[6] as nat + 0x1_0000 * b[7] as nat + 0x100 * b[8] as nat + b[9] as nat
  {
    NextByte(b, 4);
    NextByte(b, 5);
    NextByte(b, 6);
    NextByte(b, 7);
  }

  /** The whole payload, unmasked. */
  function Unmask(b: Bytes, start: nat, n: nat, masked: bool): Bytes
    requires start + n <= |b| && (masked ==> start >= 6)
  {
    var payload := b[start..start + n];
    if masked then Masked(payload, b[start - 4..start]) else payload
  }

  lemma UnmaskAt(b: Bytes, start: nat, n: nat, masked: bool, i: nat)
    requires start + n <= |b| && (masked ==> start >= 6) && i < n
    ensures |Unmask(b, start, n, masked)| == n && Unmask(b, start, n, masked)[i] == Unmasked(b, start, i, masked)
  {
    var payload := b[start..start + n];
    assert payload[i] == b[start + i];
    if masked { assert b[start - 4..start][i % 4] == b[start - 4 + i % 4]; }
  }

  lemma PayloadIs(b: Bytes, payload: Bytes, masked: bool, start: nat, n: nat)
    requires start + n <= |b| && (masked ==> start >= 6)
    ensures payload == Unmask(b, start, n, masked) <==> |payload| == n && IsPayload(b, payload, masked, start)
  {
    var meant := Unmask(b, start, n, masked);
    forall i: nat | i < n
      ensures |meant| == n && meant[i] == Unmasked(b, start, i, masked)
    {
      UnmaskAt(b, start, n, masked, i);
    }
    assert |meant| == n;
    if |payload| == n && IsPayload(b, payload, masked, start) {
      assert forall i :: 0 <= i < n ==> payload[i] == meant[i];
    }
  }

  function DecodedAt(b: Bytes, start: nat, n: nat): Frame
    requires HasHeader(b) && start + n <= |b|
  {
    DecodeFrame(b, b[start..start + n])
  }

  lemma HeadIs(b: Bytes, f: Frame)
    requires |b| >= 2
    ensures IsHead(b, f) <==>
      && f.fin == (b[0] & 0x80 != 0) && f.rsv1 == (b[0] & 0x40 != 0) && f.rsv2 == (b[0] & 0x20 != 0)
      && f.rsv3 == (b[0] & 0x10 != 0) && f.opcode == b[0] & 0x0F && f.masked == IsMasked(b[1])
  {
    MaskBit(b[1]);
    LowNibble(b[0]);
    if f.opcode < 0x10 { FirstByteIs(b[0], f); }
  }

  lemma DecodeIs(b: Bytes, n: nat, f: Frame)
    requires HasHeader(b) && HeaderSize(b[1]) + n <= |b|
    ensures var start := HeaderSize(b[1]);
      DecodedAt(b, start, n) == f <==>
      IsHead(b, f) && (f.masked ==> start >= 6) && f.payload == Unmask(b, start, n, f.masked)
  {
    HeadIs(b, f);
  }

  lemma ParsedIs(b: Bytes, f: Frame, size: nat)
    ensures TryParse(b) == Parsed(f, size) <==>
      && HasHeader(b)
      && var start, n := HeaderSize(b[1]), PayloadLength(b);
         start + n <= |b| && start + n < WORD_LIMIT && size == start + n && DecodedAt(b, start, n) == f
  {
    if HasHeader(b) { PayloadBelowWord(b); }
  }

  lemma BodyIs(b: Bytes, f: Frame, start: nat, n: nat)
    requires HasHeader(b) && start == HeaderSize(b[1]) && start + n <= |b|
    ensures DecodedAt(b, start, n) == f <==>
      IsHead(b, f) && |f.payload| == n && IsPayload(b, f.payload, f.masked, start)
  {
    DecodeIs(b, n, f);
    if f.masked ==> start >= 6 { PayloadIs(b, f.payload, f.masked, start, n); }
  }

  lemma WireIs(b: Bytes, f: Frame, size: nat)
    ensures IsWire(b, size, f) <==>
      && HasHeader(b)
      && var start, n := HeaderSize(b[1]), PayloadLength(b);
         start + n <= |b| && size == start + n && DecodedAt(b, start, n) == f
  {
    if |b| >= 2 {
      StartIsHeader(b);
      if HasHeader(b) {
        var start, n := HeaderSize(b[1]), PayloadLength(b);
        LengthIs(b, |f.payload|);
        if start + n <= |b| { BodyIs(b, f, start, n); }
        assert PayloadStart(b) == start && (IsWire(b, size, f) ==> |f.payload| == n && start + n <= |b|);
        if |f.payload| == n && start + n <= |b| && size == start + n {
          assert IsWire(b, size, f) <==> DecodedAt(b, start, n) == f;
        }
      }
    }
  }

  /** The parser finds a frame of a size exactly when the bytes start with that frame in the wire format. */
  lemma ParsesExactlyTheWireFormat(b: Bytes, f: Frame, size: nat)
    requires size < WORD_LIMIT
    ensures TryParse(b) == Parsed(f, size) <==> IsWire(b, size, f)
  {
    ParsedIs(b, f, size);
    WireIs(b, f, size);
  }

  /** A built frame is in the wire format, with the shortest length that fits and the given key. */
  lemma BuildsTheWireFormat(opcode: Opcode, payload: Bytes, fin: bool, mask: bool, key: Bytes)
    requires |key| == 4 && |payload| < WORD_LIMIT - 14
    ensures var e := Encode(opcode, payload, fin, mask, key);
      && IsWire(e, |e|, Frame(fin, false, false, false, mask, OpcodeValue(opcode), payload))
      && (|payload| <= 125 ==> PayloadStart(e) == if mask then 6 else 2)
      && (125 < |payload| <= 65535 ==> PayloadStart(e) == if mask then 8 else 4)
      && (65535 < |payload| ==> PayloadStart(e) == if mask then 14 else 10)
      && (mask ==> e[PayloadStart(e) - 4..PayloadStart(e)] == key)
  {
    var e := Encode(opcode, payload, fin, mask, key);
    var f := Frame(fin, false, false, false, mask, OpcodeValue(opcode), payload);
    RoundTrip(opcode, payload, fin, mask, key, []);
    EncodedParts(opcode, payload, fin, mask, key, []);
    assert e + [] == e;
    ParsesExactlyTheWireFormat(e, f, |e|);
    StartIsHeader(e);
    assert |e| == 1 + |LengthBytes(|payload|, mask)| + (if mask then 4 else 0) + |payload|;
  }

  /** While bytes of a frame are missing nothing is parsed. */
  lemma EveryPrefixNeedsMore(b: Bytes, n: nat)
    requires TryParse(b).Parsed? && n < TryParse(b).size
    ensures n <= |b| && TryParse(b[..n]).NeedMore?
  {
    ParsedSize(b);
    assert b[..n] + b[n..] == b;
    if TryParse(b[..n]).Parsed? { ParsedSize(b[..n]); }
    if !TryParse(b[..n]).NeedMore? { MoreBytes(b[..n], b[n..]); }
  }

  /** The examples of section 5.7 of RFC 6455: a text frame plain and masked, a ping, and a binary frame of 256 bytes. */
  lemma Examples(bytes256: Bytes)
    requires |bytes256| == 256
    ensures Encode(Text, [0x48, 0x65, 0x6c, 0x6c, 0x6f], true, false, [0, 0, 0, 0]) == [0x81, 0x05, 0x48, 0x65, 0x6c, 0x6c, 0x6f]
    ensures Encode(Text, [0x48, 0x65, 0x6c, 0x6c, 0x6f], true, true, [0x37, 0xfa, 0x21, 0x3d]) ==
      [0x81, 0x85, 0x37, 0xfa, 0x21, 0x3d, 0x7f, 0x9f, 0x4d, 0x51, 0x58]
    ensures Encode(Text, [0x48, 0x65, 0x6c], false, false, [0, 0, 0, 0]) == [0x01, 0x03, 0x48, 0x65, 0x6c]
    ensures Encode(Continuation, [0x6c, 0x6f], true, false, [0, 0, 0, 0]) == [0x80, 0x02, 0x6c, 0x6f]
    ensures Encode(Ping, [0x48, 0x65, 0x6c, 0x6c, 0x6f], true, false, [0, 0, 0, 0]) == [0x89, 0x05, 0x48, 0x65, 0x6c, 0x6c, 0x6f]
    ensures Encode(Pong, [], true, false, [0, 0, 0, 0]) == [0x8a, 0x00] && Encode(Close, [], true, false, [0, 0, 0, 0]) == [0x88, 0x00]
    ensures Encode(Binary, bytes256, true, false, [0, 0, 0, 0]) == [0x82, 0x7e, 0x01, 0x00] + bytes256
  {
    assert BigEndian(256, 2) == [0x01, 0x00] by {
      assert BigEndian(256 / 0x100, 1) == [0x01] by { assert BigEndian(0, 0) == []; }
    }
  }
}
