/** WebSocket frames (RFC 6455, section 5.2): the builder and the incremental parser. */
module WebSocket {
  import opened Bits
  import opened Octets

  type Bytes = seq<Byte>

  datatype Opcode = Continuation | Text | Binary | Close | Ping | Pong

  function OpcodeValue(opcode: Opcode): Byte {
    match opcode
    case Continuation => 0x0
    case Text => 0x1
    case Binary => 0x2
    case Close => 0x8
    case Ping => 0x9
    case Pong => 0xA
  }

  predicate IsControl(opcode: Opcode) {
    OpcodeValue(opcode) >= 0x8
  }

  /** A parsed frame; the parser keeps the four opcode bits as they come. */
  datatype Frame = Frame(fin: bool, rsv1: bool, rsv2: bool, rsv3: bool, masked: bool, opcode: Byte, payload: Bytes)

  // ---------------------------------------------------------------- the parser on plain bytes

  /** The outcome of looking for one frame: TooLarge is the exception of an impossible payload size. */
  datatype Parse = NeedMore | Parsed(frame: Frame, size: nat) | TooLarge

  /** The number that `count` bytes from `at` on spell, most significant byte first. */
  function ReadBigEndian(b: Bytes, at: nat, count: nat): nat
    requires at + count <= |b|
  {
    if count == 0 then 0 else ReadBigEndian(b, at, count - 1) * 0x100 + b[at + count - 1] as nat
  }

  predicate IsMasked(b1: Byte) {
    b1 & 0x80 != 0
  }

  /** How many bytes of extended length follow the second byte. */
  function ExtendedSize(b1: Byte): nat {
    if b1 & 0x7F == 126 then 2 else if b1 & 0x7F == 127 then 8 else 0
  }

  function HeaderSize(b1: Byte): nat {
    2 + ExtendedSize(b1) + (if IsMasked(b1) then 4 else 0)
  }

  function PayloadLength(b: Bytes): nat
    requires |b| >= 2 && |b| >= 2 + ExtendedSize(b[1])
  {
    if ExtendedSize(b[1]) > 0 then ReadBigEndian(b, 2, ExtendedSize(b[1])) else (b[1] & 0x7F) as nat
  }

  /** XOR of the i-th payload byte with the i-th byte of the repeated key. */
  function Masked(payload: Bytes, key: Bytes): (r: Bytes)
    requires |key| == 4
    ensures |r| == |payload|
  {
    seq(|payload|, i requires 0 <= i < |payload| => payload[i] ^ key[i % 4])
  }

  /** All bytes before the payload have arrived. */
  predicate HasHeader(b: Bytes) {
    |b| >= 2 && |b| >= HeaderSize(b[1])
  }

  /** The frame whose header is complete and whose payload is the given bytes. */
  function DecodeFrame(b: Bytes, payload: Bytes): Frame
    requires HasHeader(b)
  {
    var header := HeaderSize(b[1]);
    var masked := IsMasked(b[1]);
    Frame(b[0] & 0x80 != 0, b[0] & 0x40 != 0, b[0] & 0x20 != 0, b[0] & 0x10 != 0, masked, b[0] & 0x0F,
          if masked then Masked(payload, b[header - 4..header]) else payload)
  }

  /** The total size is a size_t and wraps around. */
  function SizeSum(header: nat, length: nat): nat {
    if header + length < WORD_LIMIT then header + length else header + length - WORD_LIMIT
  }

  function TryParse(b: Bytes): Parse {
    if !HasHeader(b) then NeedMore else FrameAt(b, HeaderSize(b[1]), PayloadLength(b))
  }

  /** The outcome once header and payload length are known. */
  function FrameAt(b: Bytes, header: nat, length: nat): Parse
    requires HasHeader(b)
  {
    if |b| < SizeSum(header, length) then NeedMore
    else if header + length >= WORD_LIMIT then TooLarge
    else Parsed(DecodeFrame(b, b[header..header + length]), header + length)
  }

  /** All frames of a byte stream, what is left, and whether the end was reached without the exception. */
  datatype Stream = Stream(frames: seq<Frame>, rest: Bytes, ok: bool)

  function Prepend(frames: seq<Frame>, s: Stream): Stream {
    s.(frames := frames + s.frames)
  }

  function ParseAll(b: Bytes): Stream
    decreases |b|
  {
    match TryParse(b)
    case NeedMore => Stream([], b, true)
    case TooLarge => Stream([], b, false)
    case Parsed(frame, size) =>
      ParsedSize(b);
      Prepend([frame], ParseAll(b[size..]))
  }

  lemma ParsedSize(b: Bytes)
    requires TryParse(b).Parsed?
    ensures 2 <= TryParse(b).size <= |b|
  {
  }

  lemma PayloadBelowWord(b: Bytes)
    requires HasHeader(b)
    ensures PayloadLength(b) < WORD_LIMIT
  {
    WordLimitIsPow2();
    NumberBound(b, 2, ExtendedSize(b[1]));
    Pow2Eight(0);
    Pow2Eight(8);
    assert WORD_LIMIT > 0x10000;
  }

  /** The size of the frame at the head of the bytes does not fit a word. */
  predicate Oversized(b: Bytes) {
    HasHeader(b) && HeaderSize(b[1]) + PayloadLength(b) >= WORD_LIMIT
  }

  /** The exception is thrown exactly for such a frame: its wrapped size is below its header, so no bytes are missing. */
  lemma TooLargeExactly(b: Bytes)
    ensures TryParse(b).TooLarge? <==> Oversized(b)
  {
    if HasHeader(b) { PayloadBelowWord(b); }
  }

  /** At every frame boundary of the stream, the size of a frame whose header is complete fits a word. */
  predicate SizesFit(b: Bytes)
    decreases |b|
  {
    && !Oversized(b)
    && (HasHeader(b) && |b| >= HeaderSize(b[1]) + PayloadLength(b) ==> SizesFit(b[HeaderSize(b[1]) + PayloadLength(b)..]))
  }

  /** The parser throws exactly on the streams with a size that does not fit. */
  lemma {:induction false} ThrowsExactly(b: Bytes)
    ensures ParseAll(b).ok <==> SizesFit(b)
    decreases |b|
  {
    TooLargeExactly(b);
    if TryParse(b).Parsed? {
      ParsedSize(b);
      ThrowsExactly(b[TryParse(b).size..]);
      assert ParseAll(b).ok <==> SizesFit(b);
    }
  }

  /** A size that does not fit has a 64-bit length whose top bit is set, which section 5.2 of RFC 6455 forbids. */
  lemma OversizedNeedsTopBit(b: Bytes)
    requires Oversized(b)
    ensures |b| >= 10 && b[1] & 0x7F == 127 && b[2] >= 0x80
  {
    WordLimitIsPow2();
    Pow2Add(1, 63);
    assert Pow2(1) == 2;
    if ExtendedSize(b[1]) == 0 {
    } else if b[1] & 0x7F == 126 {
      NumberBound(b, 2, 2);
      Pow2Eight(8);
    } else if b[1] & 0x7F == 127 && b[2] < 0x80 {
      TopBitClear(b, 2, 8);
    }
  }

  lemma {:induction false} NumberBound(b: Bytes, at: nat, count: nat)
    requires at + count <= |b|
    ensures ReadBigEndian(b, at, count) < Pow2(8 * count)
  {
    if count > 0 {
      NumberBound(b, at, count - 1);
      Pow2Eight(8 * count - 8);
    }
  }

  lemma {:induction false} TopBitClear(b: Bytes, at: nat, count: nat)
    requires count > 0 && at + count <= |b| && b[at] < 0x80
    ensures ReadBigEndian(b, at, count) < Pow2(8 * count - 1)
  {
    if count == 1 {
      assert Pow2(7) == 128;
    } else {
      TopBitClear(b, at, count - 1);
      Pow2Eight(8 * count - 9);
    }
  }

  lemma Pow2Eight(k: nat)
    ensures Pow2(k + 8) == 256 * Pow2(k)
  {
    Pow2Add(k, 8);
    assert Pow2(8) == 256;
  }

  // ---------------------------------------------------------------- more bytes never change what was parsed

  /** Equal bytes spell equal numbers. */
  lemma {:induction false} SameNumber(a: Bytes, b: Bytes, at: nat, at': nat, count: nat)
    requires at + count <= |a| && at' + count <= |b| && a[at..at + count] == b[at'..at' + count]
    ensures ReadBigEndian(a, at, count) == ReadBigEndian(b, at', count)
  {
    if count > 0 {
      assert a[at..at + count][count - 1] == a[at + count - 1] && b[at'..at' + count][count - 1] == b[at' + count - 1];
      assert a[at..at + count - 1] == a[at..at + count][..count - 1];
      assert b[at'..at' + count - 1] == b[at'..at' + count][..count - 1];
      SameNumber(a, b, at, at', count - 1);
    }
  }

  lemma MoreHeader(a: Bytes, c: Bytes)
    requires HasHeader(a)
    ensures HasHeader(a + c) && HeaderSize((a + c)[1]) == HeaderSize(a[1])
    ensures PayloadLength(a + c) == PayloadLength(a)
  {
    var b := a + c;
    assert b[1] == a[1];
    var extended := ExtendedSize(a[1]);
    assert b[2..2 + extended] == a[2..2 + extended];
    SameNumber(b, a, 2, 2, extended);
  }

  lemma MoreDecode(a: Bytes, c: Bytes, payload: Bytes)
    requires HasHeader(a) && HasHeader(a + c)
    ensures DecodeFrame(a + c, payload) == DecodeFrame(a, payload)
  {
    var b := a + c;
    assert b[0] == a[0] && b[1] == a[1];
    if IsMasked(a[1]) {
      SamePrefixSlice(a, c, HeaderSize(a[1]) - 4, HeaderSize(a[1]));
    }
  }

  lemma MoreFrameAt(a: Bytes, c: Bytes, header: nat, length: nat)
    requires HasHeader(a) && HasHeader(a + c) && !FrameAt(a, header, length).NeedMore?
    ensures FrameAt(a + c, header, length) == FrameAt(a, header, length)
  {
    if header + length < WORD_LIMIT {
      MoreDecode(a, c, a[header..header + length]);
      SamePrefixSlice(a, c, header, header + length);
    }
  }

  lemma MoreBytes(a: Bytes, c: Bytes)
    requires !TryParse(a).NeedMore?
    ensures TryParse(a + c) == TryParse(a)
  {
    MoreHeader(a, c);
    MoreFrameAt(a, c, HeaderSize(a[1]), PayloadLength(a));
  }

  lemma SamePrefixSlice(a: Bytes, c: Bytes, from: nat, to: nat)
    requires from <= to <= |a|
    ensures (a + c)[from..to] == a[from..to]
  {
  }

  /** Parsing what has arrived and then the rest finds the same frames as parsing everything at once. */
  lemma {:induction false} SplitParse(a: Bytes, c: Bytes)
    ensures var first := ParseAll(a);
      if first.ok then ParseAll(a + c) == Prepend(first.frames, ParseAll(first.rest + c))
      else ParseAll(a + c) == first.(rest := first.rest + c)
    decreases |a|
  {
    match TryParse(a)
    case NeedMore =>
      assert Prepend([], ParseAll(a + c)) == ParseAll(a + c);
    case TooLarge =>
      MoreBytes(a, c);
    case Parsed(frame, size) =>
      ParsedSize(a);
      MoreBytes(a, c);
      assert (a + c)[size..] == a[size..] + c;
      SplitParse(a[size..], c);
      var rest := ParseAll(a[size..]);
      if rest.ok {
        PrependTwice([frame], rest.frames, ParseAll(rest.rest + c));
      }
  }

  lemma PrependTwice(a: seq<Frame>, b: seq<Frame>, s: Stream)
    ensures Prepend(a, Prepend(b, s)) == Prepend(a + b, s)
  {
    assert a + (b + s.frames) == (a + b) + s.frames;
  }

  // ---------------------------------------------------------------- the parser object

  lemma DropTwice(b: Bytes, i: nat, n: nat)
    requires i + n <= |b|
    ensures b[i..][n..] == b[i + n..]
  {
  }

  lemma SliceOfRest(b: Bytes, i: nat, from: nat, to: nat)
    requires from <= to && i + to <= |b|
    ensures b[i..][from..to] == b[i + from..i + to]
  {
  }

  class WebSocketFrameParser {
    var buffer: Bytes
    var parseOffset: nat

    ghost predicate Valid()
      reads this
    {
      parseOffset <= |buffer|
    }

    ghost function Unparsed(): Bytes
      requires Valid()
      reads this
    {
      buffer[parseOffset..]
    }

    constructor ()
      ensures Valid() && Unparsed() == []
    {
      buffer, parseOffset := [], 0;
    }

    method Feed(data: Bytes)
      requires Valid()
      modifies this
      ensures Valid() && Unparsed() == old(Unparsed()) + data
    {
      if data == [] {
        return;
      }
      buffer := buffer + data;
    }

    /** The exception leaves the method with the frames it had found, and they are lost; the offset stays past them. */
    method ParseFrames() returns (frames: seq<Frame>, threw: bool)
      requires Valid()
      modifies this
      ensures Valid() && threw == !ParseAll(old(Unparsed())).ok && Unparsed() == ParseAll(old(Unparsed())).rest
      ensures frames == if threw then [] else ParseAll(old(Unparsed())).frames
    {
      frames, threw := [], false;
      ghost var start := ParseAll(Unparsed());
      assert Prepend([], start) == start;
      while true
        invariant Valid() && start == Prepend(frames, ParseAll(Unparsed()))
        decreases |buffer| - parseOffset
      {
        ghost var before := frames;
        var parse := NextFrame();
        match parse {
          case NeedMore =>
            break;
          case TooLarge =>
            return [], true;
          case Parsed(frame, _) =>
            frames := frames + [frame];
            PrependTwice(before, [frame], ParseAll(Unparsed()));
        }
      }
      Compact();
    }

    /** TryParseOneFrame, and what it means for the stream. */
    method NextFrame() returns (parse: Parse)
      requires Valid()
      modifies this`parseOffset
      ensures Valid() && (parse.Parsed? ==> parseOffset > old(parseOffset))
      ensures ParseAll(old(Unparsed())) ==
        if parse.Parsed? then Prepend([parse.frame], ParseAll(Unparsed()))
        else Stream([], Unparsed(), parse.NeedMore?)
    {
      parse := TryParseOneFrame();
    }

    /** Drops the parsed prefix once it is large; the unparsed bytes stay the same. */
    method Compact()
      requires Valid()
      modifies this
      ensures Valid() && Unparsed() == old(Unparsed())
    {
      if parseOffset > 0 {
        if parseOffset == |buffer| {
          buffer := [];
          parseOffset := 0;
        } else if parseOffset >= 4096 || parseOffset > |buffer| / 2 {
          buffer := buffer[parseOffset..];
          parseOffset := 0;
        }
      }
    }

    method TryParseOneFrame() returns (parse: Parse)
      requires Valid()
      modifies this`parseOffset
      ensures Valid() && parse == TryParse(old(Unparsed()))
      ensures Unparsed() == if parse.Parsed? then old(Unparsed())[parse.size..] else old(Unparsed())
      ensures parse.Parsed? ==> parseOffset > old(parseOffset)
    {
      var complete, headerSize, payloadLength := ReadHeader();
      if !complete {
        return NeedMore;
      }
      parse := TryReadFrame(headerSize, payloadLength);
    }

    /** The part of TryParseOneFrame after its header: checks the sizes, takes the frame and moves past it. */
    method TryReadFrame(headerSize: nat, payloadLength: nat) returns (parse: Parse)
      requires Valid() && HasHeader(Unparsed()) && headerSize == HeaderSize(Unparsed()[1])
      modifies this`parseOffset
      ensures Valid() && parse == FrameAt(old(Unparsed()), headerSize, payloadLength)
      ensures Unparsed() == if parse.Parsed? then old(Unparsed())[parse.size..] else old(Unparsed())
      ensures parse.Parsed? ==> parseOffset > old(parseOffset)
    {
      var available := |buffer| - parseOffset;
      var totalSize := SizeSum(headerSize, payloadLength);
      if available < totalSize {
        return NeedMore;
      }
      if headerSize + payloadLength >= WORD_LIMIT {
        return TooLarge;
      }
      var frame := ReadFrame(headerSize, payloadLength);
      DropTwice(buffer, parseOffset, totalSize);
      parseOffset := parseOffset + totalSize;
      return Parsed(frame, totalSize);
    }

    /** The part of TryParseOneFrame that reads the lengths: false when the header is not complete. */
    method ReadHeader() returns (complete: bool, headerSize: nat, payloadLength: nat)
      requires Valid()
      ensures complete <==> HasHeader(Unparsed())
      ensures complete ==> headerSize == HeaderSize(Unparsed()[1]) && payloadLength == PayloadLength(Unparsed())
    {
      ghost var b := Unparsed();
      var available := |buffer| - parseOffset;
      if available < 2 {
        return false, 0, 0;
      }
      var b1 := buffer[parseOffset + 1];
      assert b[1] == b1;
      payloadLength := (b1 & 0x7F) as nat;
      headerSize := 2;
      if payloadLength == 126 {
        if available < headerSize + 2 {
          return false, 0, 0;
        }
        SameNumber(b, buffer, 2, parseOffset + 2, 2);
        payloadLength := ReadBigEndian(buffer, parseOffset + headerSize, 2);
        headerSize := headerSize + 2;
      } else if payloadLength == 127 {
        if available < headerSize + 8 {
          return false, 0, 0;
        }
        SameNumber(b, buffer, 2, parseOffset + 2, 8);
        payloadLength := ReadBigEndian(buffer, parseOffset + headerSize, 8);
        headerSize := headerSize + 8;
      }
      if IsMasked(b1) {
        if available < headerSize + 4 {
          return false, 0, 0;
        }
        headerSize := headerSize + 4;
      }
      return true, headerSize, payloadLength;
    }

    /** The part of TryParseOneFrame that builds the frame. */
    method ReadFrame(headerSize: nat, payloadLength: nat) returns (frame: Frame)
      requires Valid() && HasHeader(Unparsed()) && headerSize == HeaderSize(Unparsed()[1])
      requires headerSize + payloadLength <= |Unparsed()|
      ensures frame == DecodeFrame(Unparsed(), Unparsed()[headerSize..headerSize + payloadLength])
    {
      var b0, b1 := buffer[parseOffset], buffer[parseOffset + 1];
      var payload := ReadPayload(IsMasked(b1), headerSize, payloadLength);
      return Frame(b0 & 0x80 != 0, b0 & 0x40 != 0, b0 & 0x20 != 0, b0 & 0x10 != 0, IsMasked(b1), b0 & 0x0F, payload);
    }

    method CopyUnparsed(from: nat, to: nat) returns (bytes: Bytes)
      requires Valid() && from <= to <= |Unparsed()|
      ensures bytes == Unparsed()[from..to]
    {
      SliceOfRest(buffer, parseOffset, from, to);
      bytes := buffer[parseOffset + from..parseOffset + to];
    }

    /** Copies the payload out of the buffer, unmasking it with the four bytes before it. */
    method ReadPayload(masked: bool, headerSize: nat, payloadLength: nat) returns (payload: Bytes)
      requires Valid() && (masked ==> headerSize >= 4)
      requires headerSize + payloadLength <= |Unparsed()|
      ensures var raw := Unparsed()[headerSize..headerSize + payloadLength];
        payload == if masked then Masked(raw, Unparsed()[headerSize - 4..headerSize]) else raw
    {
      payload := CopyUnparsed(headerSize, headerSize + payloadLength);
      if masked {
        var key := CopyUnparsed(headerSize - 4, headerSize);
        payload := ApplyMask(payload, key);
      }
    }
  }

  /** The masking loop of the builder and the unmasking loop of the parser. */
  method ApplyMask(payload: Bytes, key: Bytes) returns (out: Bytes)
    requires |key| == 4
    ensures out == Masked(payload, key)
  {
    out := [];
    var i := 0;
    while i < |payload|
      invariant 0 <= i <= |payload| && |out| == i
      invariant forall j :: 0 <= j < i ==> out[j] == payload[j] ^ key[j % 4]
    {
      out := out + [payload[i] ^ key[i % 4]];
      i := i + 1;
    }
  }

  // ---------------------------------------------------------------- the builder

  datatype Built = Built(bytes: Bytes) | FragmentedControlFrame | ControlPayloadTooLong

  /** The number in `count` bytes, most significant first. */
  function BigEndian(n: nat, count: nat): (r: Bytes)
    ensures |r| == count
  {
    if count == 0 then [] else BigEndian(n / 0x100, count - 1) + [(n % 0x100) as Byte]
  }

  function LengthBytes(n: nat, mask: bool): Bytes {
    var maskBit: Byte := if mask then 0x80 else 0x00;
    if n <= 125 then [maskBit | (n as Byte)]
    else if n <= 65535 then [maskBit | 126] + BigEndian(n, 2)
    else [maskBit | 127] + BigEndian(n, 8)
  }

  function Encode(opcode: Opcode, payload: Bytes, fin: bool, mask: bool, key: Bytes): Bytes
    requires |key| == 4
  {
    [(if fin then 0x80 else 0x00) | OpcodeValue(opcode)] + LengthBytes(|payload|, mask)
      + (if mask then key + Masked(payload, key) else payload)
  }

  method BuildFrame(opcode: Opcode, payload: Bytes, fin: bool, mask: bool, key: Bytes) returns (built: Built)
    requires |key| == 4
    ensures var control := opcode.Close? || opcode.Ping? || opcode.Pong?;
      && (built.FragmentedControlFrame? <==> control && !fin)
      && (built.ControlPayloadTooLong? <==> control && fin && |payload| > 125)
    ensures built.Built? ==> built.bytes == Encode(opcode, payload, fin, mask, key)
  {
    if IsControl(opcode) {
      if !fin {
        return FragmentedControlFrame;
      }
      if |payload| > 125 {
        return ControlPayloadTooLong;
      }
    }
    var out := [(if fin then 0x80 else 0x00) | OpcodeValue(opcode)];
    out := out + LengthBytes(|payload|, mask);
    if mask {
      var body := ApplyMask(payload, key);
      assert out + (key + body) == (out + key) + body;
      out := out + key;
      out := out + body;
    } else {
      out := out + payload;
    }
    return Built(out);
  }

  // ---------------------------------------------------------------- round trip

  lemma {:induction false} ReadsBigEndian(n: nat, count: nat)
    requires n < Pow2(8 * count)
    ensures ReadBigEndian(BigEndian(n, count), 0, count) == n
  {
    if count > 0 {
      Pow2Eight(8 * count - 8);
      ReadsBigEndian(n / 0x100, count - 1);
      ReadsOneMore(BigEndian(n / 0x100, count - 1), n / 0x100, n % 0x100);
    }
  }

  lemma ReadsOneMore(b: Bytes, high: nat, low: nat)
    requires low < 0x100 && ReadBigEndian(b, 0, |b|) == high
    ensures ReadBigEndian(b + [low as Byte], 0, |b| + 1) == high * 0x100 + low
  {
    var longer := b + [low as Byte];
    assert longer[0..|b|] == b[0..|b|];
    SameNumber(longer, b, 0, 0, |b|);
    ByteValue(low);
  }

  lemma MaskTwice(payload: Bytes, key: Bytes)
    requires |key| == 4
    ensures Masked(Masked(payload, key), key) == payload
  {
    forall i | 0 <= i < |payload|
      ensures Masked(Masked(payload, key), key)[i] == payload[i]
    {
      XorBack(payload[i], key[i % 4]);
    }
  }

  lemma XorBack(a: Byte, k: Byte)
    ensures (a ^ k) ^ k == a
  {
  }

  /** The flag bits and the opcode come back from the first byte. */
  lemma FirstByte(opcode: Opcode, fin: bool)
    ensures var b: Byte := (if fin then 0x80 else 0x00) | OpcodeValue(opcode);
      && (b & 0x80 != 0 <==> fin) && b & 0x40 == 0 && b & 0x20 == 0 && b & 0x10 == 0
      && b & 0x0F == OpcodeValue(opcode)
  {
    match opcode {
      case Continuation =>
      case Text =>
      case Binary =>
      case Close =>
      case Ping =>
      case Pong =>
    }
  }

  /** The mask bit and the seven length bits come back from the second byte. */
  lemma SecondByte(v: Byte, mask: bool)
    requires v < 0x80
    ensures var b: Byte := (if mask then 0x80 else 0x00) | v; (IsMasked(b) <==> mask) && b & 0x7F == v
  {
  }

  lemma ShortLength(b: Bytes, n: nat, mask: bool)
    requires n <= 125 && |b| >= 2 && b[1] == LengthBytes(n, mask)[0]
    ensures (IsMasked(b[1]) <==> mask) && ExtendedSize(b[1]) == 0 && PayloadLength(b) == n
  {
    SecondByte(n as Byte, mask);
    ByteValue(n);
  }

  lemma LongLength(b: Bytes, n: nat, count: nat, mask: bool)
    requires (count == 2 || count == 8) && n < Pow2(8 * count) && |b| >= 2 + count
    requires b[1] == (if mask then 0x80 else 0x00) | (if count == 2 then 126 else 127)
    requires b[2..2 + count] == BigEndian(n, count)
    ensures (IsMasked(b[1]) <==> mask) && ExtendedSize(b[1]) == count && PayloadLength(b) == n
  {
    SecondByte(if count == 2 then 126 else 127, mask);
    ReadsBigEndian(n, count);
    assert BigEndian(n, count)[0..count] == BigEndian(n, count);
    SameNumber(b, BigEndian(n, count), 2, 0, count);
  }

  /** Across all three encodings the length comes back, and the header has the size the parser expects. */
  lemma LengthComesBack(b: Bytes, n: nat, mask: bool)
    requires n < WORD_LIMIT && |b| >= 1 + |LengthBytes(n, mask)| && b[1..1 + |LengthBytes(n, mask)|] == LengthBytes(n, mask)
    ensures IsMasked(b[1]) <==> mask
    ensures |LengthBytes(n, mask)| == 1 + ExtendedSize(b[1]) && PayloadLength(b) == n
  {
    var bytes := LengthBytes(n, mask);
    assert b[1] == b[1..1 + |bytes|][0];
    if n <= 125 {
      ShortLength(b, n, mask);
    } else {
      var count := if n <= 65535 then 2 else 8;
      NumberLimit(count);
      assert b[2..2 + count] == b[1..1 + |bytes|][1..] == BigEndian(n, count);
      LongLength(b, n, count, mask);
    }
  }

  lemma NumberLimit(count: nat)
    ensures count == 2 ==> Pow2(8 * count) == 0x1_0000
    ensures count == 8 ==> Pow2(8 * count) == WORD_LIMIT
  {
    WordLimitIsPow2();
    Pow2Eight(8);
    assert Pow2(8) == 0x100;
  }

  /** Where the parts of a built frame lie in a stream that starts with it. */
  lemma Layout(first: Byte, lengthBytes: Bytes, key: Bytes, body: Bytes, rest: Bytes)
    ensures var b := ([first] + lengthBytes + (key + body)) + rest;
      var header := 1 + |lengthBytes| + |key|;
      && |b| == header + |body| + |rest| && b[0] == first && b[1..1 + |lengthBytes|] == lengthBytes
      && b[1 + |lengthBytes|..header] == key && b[header..header + |body|] == body
  {
  }

  /**
    Whatever the builder accepts, parsing the built frame followed by any bytes returns that frame and
    consumes exactly its bytes.
   */
  lemma RoundTrip(opcode: Opcode, payload: Bytes, fin: bool, mask: bool, key: Bytes, rest: Bytes)
    requires |key| == 4 && |payload| < WORD_LIMIT - 14
    ensures var e := Encode(opcode, payload, fin, mask, key);
      TryParse(e + rest) == Parsed(Frame(fin, false, false, false, mask, OpcodeValue(opcode), payload), |e|)
  {
    var b := Encode(opcode, payload, fin, mask, key) + rest;
    EncodedParts(opcode, payload, fin, mask, key, rest);
    DecodesTo(b, opcode, payload, fin, mask, key);
  }

  /** The header fields and the payload stand in a built frame where the parser looks for them. */
  lemma EncodedParts(opcode: Opcode, payload: Bytes, fin: bool, mask: bool, key: Bytes, rest: Bytes)
    requires |key| == 4 && |payload| < WORD_LIMIT - 14
    ensures var e := Encode(opcode, payload, fin, mask, key);
      var b := e + rest;
      && HasHeader(b) && b[0] == (if fin then 0x80 else 0x00) | OpcodeValue(opcode)
      && (IsMasked(b[1]) <==> mask) && PayloadLength(b) == |payload|
      && |b| >= |e| == HeaderSize(b[1]) + |payload|
      && (mask ==> b[HeaderSize(b[1]) - 4..HeaderSize(b[1])] == key)
      && b[HeaderSize(b[1])..HeaderSize(b[1]) + |payload|] == if mask then Masked(payload, key) else payload
  {
    var b := Encode(opcode, payload, fin, mask, key) + rest;
    var first: Byte := (if fin then 0x80 else 0x00) | OpcodeValue(opcode);
    var body := if mask then Masked(payload, key) else payload;
    var usedKey := if mask then key else [];
    assert usedKey + body == if mask then key + body else body;
    Layout(first, LengthBytes(|payload|, mask), usedKey, body, rest);
    LengthComesBack(b, |payload|, mask);
  }

  lemma DecodesTo(b: Bytes, opcode: Opcode, payload: Bytes, fin: bool, mask: bool, key: Bytes)
    requires |key| == 4 && |payload| < WORD_LIMIT - 14 && HasHeader(b)
    requires b[0] == (if fin then 0x80 else 0x00) | OpcodeValue(opcode)
    requires (IsMasked(b[1]) <==> mask) && PayloadLength(b) == |payload|
    requires |b| >= HeaderSize(b[1]) + |payload|
    requires mask ==> b[HeaderSize(b[1]) - 4..HeaderSize(b[1])] == key
    requires b[HeaderSize(b[1])..HeaderSize(b[1]) + |payload|] == if mask then Masked(payload, key) else payload
    ensures TryParse(b) ==
      Parsed(Frame(fin, false, false, false, mask, OpcodeValue(opcode), payload), HeaderSize(b[1]) + |payload|)
  {
    FirstByte(opcode, fin);
    MaskTwice(payload, key);
  }

  /** A frame as the sender describes it. */
  datatype Message = Message(opcode: Opcode, payload: Bytes, fin: bool, mask: bool, key: Bytes)

  ghost predicate Sendable(m: Message) {
    |m.key| == 4 && |m.payload| < WORD_LIMIT - 14
  }

  ghost predicate AllSendable(messages: seq<Message>) {
    forall i {:trigger messages[i]} :: 0 <= i < |messages| ==> Sendable(messages[i])
  }

  ghost function EncodeAll(messages: seq<Message>): Bytes
    requires AllSendable(messages)
  {
    if messages == [] then []
    else var m := messages[0]; Encode(m.opcode, m.payload, m.fin, m.mask, m.key) + EncodeAll(messages[1..])
  }

  function Received(m: Message): Frame {
    Frame(m.fin, false, false, false, m.mask, OpcodeValue(m.opcode), m.payload)
  }

  function ReceivedAll(messages: seq<Message>): seq<Frame> {
    seq(|messages|, i requires 0 <= i < |messages| => Received(messages[i]))
  }

  lemma FrameThenRest(m: Message, rest: Bytes)
    requires Sendable(m)
    ensures ParseAll(Encode(m.opcode, m.payload, m.fin, m.mask, m.key) + rest) == Prepend([Received(m)], ParseAll(rest))
  {
    var e := Encode(m.opcode, m.payload, m.fin, m.mask, m.key);
    RoundTrip(m.opcode, m.payload, m.fin, m.mask, m.key, rest);
    assert (e + rest)[|e|..] == rest;
  }

  /** A stream of built frames parses into exactly those frames. */
  lemma {:induction false} StreamRoundTrip(messages: seq<Message>)
    requires AllSendable(messages)
    ensures ParseAll(EncodeAll(messages)) == Stream(ReceivedAll(messages), [], true)
  {
    if messages != [] {
      var m := messages[0];
      StreamRoundTrip(messages[1..]);
      FrameThenRest(m, EncodeAll(messages[1..]));
      FirstReceived(messages);
    }
  }

  lemma FirstReceived(messages: seq<Message>)
    requires messages != []
    ensures ReceivedAll(messages) == [Received(messages[0])] + ReceivedAll(messages[1..])
  {
  }

  // ---------------------------------------------------------------- any split into feeds and parse calls

  datatype Call = Feed(data: Bytes) | ParseCall

  /** The bytes fed by a run of calls. */
  function Fed(calls: seq<Call>): Bytes {
    if calls == [] then []
    else
      var before := Fed(calls[..|calls| - 1]);
      if calls[|calls| - 1].Feed? then before + calls[|calls| - 1].data else before
  }

  /** The frames returned over a run of calls, the bytes left unparsed, and whether no call threw. */
  function RunCalls(calls: seq<Call>): Stream {
    if calls == [] then Stream([], [], true)
    else
      var before := RunCalls(calls[..|calls| - 1]);
      match calls[|calls| - 1]
      case Feed(data) => before.(rest := before.rest + data)
      case ParseCall =>
        var r := ParseAll(before.rest);
        if r.ok then Stream(before.frames + r.frames, r.rest, before.ok) else Stream(before.frames, r.rest, false)
  }

  /** A parser object taken through the calls. */
  method Replay(calls: seq<Call>) returns (frames: seq<Frame>, threw: bool, parser: WebSocketFrameParser)
    ensures parser.Valid() && RunCalls(calls) == Stream(frames, parser.Unparsed(), !threw)
  {
    parser := new WebSocketFrameParser();
    frames, threw := [], false;
    for i := 0 to |calls|
      invariant parser.Valid() && fresh(parser) && RunCalls(calls[..i]) == Stream(frames, parser.Unparsed(), !threw)
    {
      assert calls[..i + 1][..i] == calls[..i];
      match calls[i] {
        case Feed(data) =>
          parser.Feed(data);
        case ParseCall =>
          var found, failed := parser.ParseFrames();
          frames, threw := frames + found, threw || failed;
      }
    }
    assert calls[..|calls|] == calls;
  }

  /**
    For every split of a stream whose sizes fit into feeds and parse calls, nothing throws, and the frames returned so
    far followed by the frames in the unparsed bytes are the frames of the whole stream.
   */
  lemma {:induction false} AnySplitFindsTheSameFrames(calls: seq<Call>)
    requires SizesFit(Fed(calls))
    ensures RunCalls(calls).ok
    ensures ParseAll(Fed(calls)) == Prepend(RunCalls(calls).frames, ParseAll(RunCalls(calls).rest))
    ensures Parsing(calls) ==> RunCalls(calls) == ParseAll(Fed(calls))
  {
    ThrowsExactly(Fed(calls));
    if calls == [] {
      assert Prepend([], ParseAll([])) == ParseAll([]);
    } else {
      var before, last := calls[..|calls| - 1], calls[|calls| - 1];
      var data := if last.Feed? then last.data else [];
      assert Fed(calls) == Fed(before) + data;
      SplitParse(Fed(before), data);
      ThrowsExactly(Fed(before));
      AnySplitFindsTheSameFrames(before);
      var r := RunCalls(before);
      match last {
        case Feed(_) =>
          SplitParse(r.rest, data);
          SameSplit(Fed(before), data, r);
        case ParseCall =>
          ParseAllTwice(r.rest);
          PrependNothing(r.frames, ParseAll(r.rest));
      }
    }
  }

  /** The calls end with a parse. */
  predicate Parsing(calls: seq<Call>) {
    calls != [] && calls[|calls| - 1].ParseCall?
  }

  /** At every frame boundary of the stream, a 64-bit length has a clear top bit (section 5.2 of RFC 6455). */
  predicate TopBitsClear(b: Bytes)
    decreases |b|
  {
    && (|b| >= 10 && b[1] & 0x7F == 127 ==> b[2] < 0x80)
    && (HasHeader(b) && |b| >= HeaderSize(b[1]) + PayloadLength(b) ==> TopBitsClear(b[HeaderSize(b[1]) + PayloadLength(b)..]))
  }

  /** Streams that keep to the RFC fit, so the parser never throws on them. */
  lemma {:induction false} TopBitsClearFits(b: Bytes)
    requires TopBitsClear(b)
    ensures SizesFit(b)
    decreases |b|
  {
    if Oversized(b) {
      OversizedNeedsTopBit(b);
    } else if HasHeader(b) && |b| >= HeaderSize(b[1]) + PayloadLength(b) {
      TopBitsClearFits(b[HeaderSize(b[1]) + PayloadLength(b)..]);
    }
  }

  lemma ClearStreamSplitsAnywhere(calls: seq<Call>)
    requires TopBitsClear(Fed(calls))
    ensures RunCalls(calls).ok
    ensures ParseAll(Fed(calls)) == Prepend(RunCalls(calls).frames, ParseAll(RunCalls(calls).rest))
    ensures Parsing(calls) ==> RunCalls(calls) == ParseAll(Fed(calls))
  {
    TopBitsClearFits(Fed(calls));
    AnySplitFindsTheSameFrames(calls);
  }

  /** However a stream of built frames is split, parsing it returns exactly those frames. */
  lemma BuiltFramesSurviveAnySplit(calls: seq<Call>, messages: seq<Message>)
    requires AllSendable(messages)
    requires Fed(calls) == EncodeAll(messages) && Parsing(calls)
    ensures RunCalls(calls) == Stream(ReceivedAll(messages), [], true)
  {
    StreamRoundTrip(messages);
    ThrowsExactly(Fed(calls));
    AnySplitFindsTheSameFrames(calls);
  }

  // ---------------------------------------------------------------- streams on which the split matters

  /** However the stream is split, the calls return the same frames. */
  ghost predicate SplitsAgree(b: Bytes) {
    forall calls, others :: Parsing(calls) && Parsing(others) && Fed(calls) == b && Fed(others) == b ==>
      RunCalls(calls).frames == RunCalls(others).frames
  }

  /** The split matters exactly when a size that does not fit comes behind a frame that does. */
  lemma SplitsAgreeExactly(b: Bytes)
    ensures SplitsAgree(b) <==> SizesFit(b) || Oversized(b)
  {
    if SizesFit(b) || Oversized(b) {
      forall calls, others | Parsing(calls) && Parsing(others) && Fed(calls) == b && Fed(others) == b
        ensures RunCalls(calls).frames == RunCalls(others).frames
      {
        if SizesFit(b) {
          AnySplitFindsTheSameFrames(calls);
          AnySplitFindsTheSameFrames(others);
        } else {
          TooLargeExactly(b);
          NothingFound(calls);
          NothingFound(others);
        }
      }
    } else {
      SplitMatters(b);
    }
  }

  /** While no frame is complete, or none before an impossible one, no call returns a frame. */
  lemma {:induction false} NothingFound(calls: seq<Call>)
    requires ParseAll(Fed(calls)).frames == []
    ensures RunCalls(calls).frames == [] && RunCalls(calls).rest == Fed(calls)
  {
    if calls != [] {
      var before, last := calls[..|calls| - 1], calls[|calls| - 1];
      var data := if last.Feed? then last.data else [];
      assert Fed(calls) == Fed(before) + data;
      SplitParse(Fed(before), data);
      NothingFound(before);
    }
  }

  /** All at once the exception loses the first frame; fed after it has been returned, the rest throws too late for that. */
  lemma SplitMatters(b: Bytes)
    requires !SizesFit(b) && !Oversized(b)
    ensures !SplitsAgree(b)
  {
    var size := HeaderSize(b[1]) + PayloadLength(b);
    var first, rest := b[..size], b[size..];
    assert b == first + rest;
    HeadParses(b, size);
    ThrowsExactly(b);
    RunOnce(b);
    RunTwice(first, rest);
    Differ(b, [Feed(b), ParseCall], [Feed(first), ParseCall, Feed(rest), ParseCall]);
  }

  lemma Differ(b: Bytes, calls: seq<Call>, others: seq<Call>)
    requires Parsing(calls) && Parsing(others) && Fed(calls) == b && Fed(others) == b
    requires RunCalls(calls).frames != RunCalls(others).frames
    ensures !SplitsAgree(b)
  {
  }

  lemma HeadParses(b: Bytes, size: nat)
    requires HasHeader(b) && size == HeaderSize(b[1]) + PayloadLength(b) && size <= |b| && size < WORD_LIMIT
    ensures ParseAll(b[..size]).ok && |ParseAll(b[..size]).frames| == 1
  {
    var a := b[..size];
    SameNumber(a, b, 2, 2, ExtendedSize(b[1]));
    assert HasHeader(a) && PayloadLength(a) == PayloadLength(b) && HeaderSize(a[1]) == HeaderSize(b[1]);
    WholeFrame(a);
  }

  lemma WholeFrame(b: Bytes)
    requires HasHeader(b) && |b| == HeaderSize(b[1]) + PayloadLength(b) < WORD_LIMIT
    ensures ParseAll(b).ok && |ParseAll(b).frames| == 1
  {
    assert TryParse(b).Parsed? && TryParse(b).size == |b|;
    assert b[|b|..] == [] && ParseAll([]) == Stream([], [], true);
  }

  lemma RunOnce(b: Bytes)
    ensures var calls := [Feed(b), ParseCall];
      && Fed(calls) == b && RunCalls(calls).rest == ParseAll(b).rest
      && RunCalls(calls).frames == if ParseAll(b).ok then ParseAll(b).frames else []
  {
    var fed := [Feed(b)];
    assert [Feed(b), ParseCall][..1] == fed && fed[..0] == [];
    assert RunCalls(fed) == Stream([], b, true) && Fed(fed) == b by {
      assert Fed([]) == [] && RunCalls([]) == Stream([], [], true);
      assert [] + b == b;
    }
  }

  lemma RunTwice(first: Bytes, rest: Bytes)
    ensures var calls := [Feed(first), ParseCall, Feed(rest), ParseCall];
      && Fed(calls) == first + rest
      && (ParseAll(first).ok ==>
           var next := ParseAll(ParseAll(first).rest + rest);
           RunCalls(calls).frames == ParseAll(first).frames + if next.ok then next.frames else [])
  {
    RunOnce(first);
    var one, two, all := [Feed(first), ParseCall], [Feed(first), ParseCall, Feed(rest)], [Feed(first), ParseCall, Feed(rest), ParseCall];
    assert all[..3] == two && two[..2] == one;
    assert Fed(two) == first + rest && RunCalls(two) == RunCalls(one).(rest := RunCalls(one).rest + rest);
  }

  /** An empty binary frame. */
  const EMPTY_FRAME: Bytes := [0x82, 0]

  /** The header of a frame of the largest 64-bit length. */
  const HUGE_FRAME: Bytes := [0x82, 127, 0xFF, 0xFF, 0xFF, 0xFF, 0xFF, 0xFF, 0xFF, 0xFF]

  lemma HugeIsOversized()
    ensures PayloadLength(HUGE_FRAME) == WORD_LIMIT - 1 && Oversized(HUGE_FRAME)
  {
    assert ReadBigEndian(HUGE_FRAME, 2, 4) == 0xFFFF_FFFF;
    assert ReadBigEndian(HUGE_FRAME, 2, 8) == WORD_LIMIT - 1;
  }

  /** Two splits of the same twelve bytes: in one call the empty frame is lost, in two calls it is returned. */
  lemma FrameIsLost()
    ensures RunCalls([Feed(EMPTY_FRAME + HUGE_FRAME), ParseCall]).frames == []
    ensures RunCalls([Feed(EMPTY_FRAME), ParseCall, Feed(HUGE_FRAME), ParseCall]).frames ==
      [Frame(true, false, false, false, false, 2, [])]
  {
    HugeIsOversized();
    TooLargeExactly(HUGE_FRAME);
    assert EMPTY_FRAME[2..] == [] && EMPTY_FRAME[2..2] == [];
    assert TryParse(EMPTY_FRAME) == Parsed(Frame(true, false, false, false, false, 2, []), 2);
    assert ParseAll(EMPTY_FRAME) == Stream([Frame(true, false, false, false, false, 2, [])], [], true) by {
      assert ParseAll([]) == Stream([], [], true);
    }
    assert [] + HUGE_FRAME == HUGE_FRAME;
    SplitParse(EMPTY_FRAME, HUGE_FRAME);
    RunOnce(EMPTY_FRAME + HUGE_FRAME);
    RunTwice(EMPTY_FRAME, HUGE_FRAME);
  }

  lemma {:induction false} ParseAllTwice(b: Bytes)
    ensures ParseAll(b).ok ==> ParseAll(ParseAll(b).rest) == Stream([], ParseAll(b).rest, true)
    decreases |b|
  {
    if TryParse(b).Parsed? {
      ParsedSize(b);
      ParseAllTwice(b[TryParse(b).size..]);
    }
  }

  lemma PrependNothing(frames: seq<Frame>, s: Stream)
    ensures Prepend(frames, s) == Prepend(Prepend(frames, s).frames, Stream([], s.rest, s.ok))
  {
  }

  lemma SameSplit(fed: Bytes, data: Bytes, r: Stream)
    requires ParseAll(fed).ok && ParseAll(fed) == Prepend(r.frames, ParseAll(r.rest))
    ensures ParseAll(fed + data) == Prepend(r.frames, ParseAll(r.rest + data))
  {
    SplitParse(fed, data);
    SplitParse(r.rest, data);
    PrependTwice(r.frames, ParseAll(r.rest).frames, ParseAll(ParseAll(r.rest).rest + data));
  }
}
