/**
 The wire frame: start byte, version, addresses, message type, length-prefixed payload, sequence number and a
 CRC over everything before it.
 */
module Frames {
  import opened Wrappers
  import opened Bytes
  import opened Bits
  import opened Crc

  datatype MessageType =
    | StatusRequest | StatusResponse | MeasurementRequest | MeasurementResponse
    | ControlCommand | ControlAck | FaultReport | EventReport
    | ConfigRead | ConfigWrite | ConfigAck | TimeSync | TimeAck
    | Identify | IdentifyAck | Heartbeat | HeartbeatAck

  /** Wire codes are positions in declaration order. */
  const MESSAGE_TYPES: seq<MessageType> :=
    [ StatusRequest, StatusResponse, MeasurementRequest, MeasurementResponse,
      ControlCommand, ControlAck, FaultReport, EventReport,
      ConfigRead, ConfigWrite, ConfigAck, TimeSync, TimeAck,
      Identify, IdentifyAck, Heartbeat, HeartbeatAck ]

  datatype FrameError = ProtocolError | IntegrityError | ValueError

  const SOF: byte := 0xA5
  const HEADER_SIZE := 7
  const TRAILER_SIZE := 4

  function CodeFor(t: MessageType): (code: nat)
    ensures code < |MESSAGE_TYPES| && MESSAGE_TYPES[code] == t
  {
    match t
    case StatusRequest => 0
    case StatusResponse => 1
    case MeasurementRequest => 2
    case MeasurementResponse => 3
    case ControlCommand => 4
    case ControlAck => 5
    case FaultReport => 6
    case EventReport => 7
    case ConfigRead => 8
    case ConfigWrite => 9
    case ConfigAck => 10
    case TimeSync => 11
    case TimeAck => 12
    case Identify => 13
    case IdentifyAck => 14
    case Heartbeat => 15
    case HeartbeatAck => 16
  }

  lemma CodeForInverse(code: nat)
    requires code < |MESSAGE_TYPES|
    ensures CodeFor(MESSAGE_TYPES[code]) == code
  {
    assert code in {0, 1, 2, 3, 4, 5, 6, 7, 8, 9, 10, 11, 12, 13, 14, 15, 16};
  }

  function MessageTypeForCode(code: nat): Result<MessageType, FrameError>
  {
    if code < |MESSAGE_TYPES| then Ok(MESSAGE_TYPES[code]) else Err(ProtocolError)
  }

  datatype RawFrame = RawFrame(
    source: int,
    destination: int,
    messageType: MessageType,
    payload: bytes,
    sequence: int,
    protocolVersion: int)

  /** The range checks made when a frame is built; the version is not among them. */
  predicate InRange(f: RawFrame)
  {
    && 0 <= f.source <= 255
    && 0 <= f.destination <= 255
    && 0 <= f.sequence <= 0xFFFF
    && |f.payload| <= 0xFFFF
  }

  type Frame = f: RawFrame | InRange(f) witness RawFrame(0, 0, StatusRequest, [], 0, 1)

  function NewFrame(f: RawFrame): Result<Frame, FrameError>
  {
    if InRange(f) then Ok(f) else Err(ProtocolError)
  }

  /** A frame whose version fits the one octet it is written in. */
  predicate Encodable(f: Frame)
  {
    0 <= f.protocolVersion <= 255
  }

  function Header(version: byte, source: byte, destination: byte, code: byte): (h: bytes)
    ensures |h| == 5
  {
    [SOF, version, source, destination] + [code]
  }

  function Body(f: Frame): (b: bytes)
    requires Encodable(f)
    ensures |b| == HEADER_SIZE + |f.payload| + 2
  {
    Header(f.protocolVersion, f.source, f.destination, CodeFor(f.messageType))
    + BigEndian(|f.payload|, 2) + f.payload + BigEndian(f.sequence, 2)
  }

  function Encode(f: Frame): Result<bytes, FrameError>
  {
    if Encodable(f) then Ok(Body(f) + BigEndian(Crc16(Body(f)), 2)) else Err(ValueError)
  }

  function Decode(data: bytes): Result<Frame, FrameError>
  {
    if |data| < HEADER_SIZE + TRAILER_SIZE then Err(ProtocolError)
    else if data[0] != SOF then Err(ProtocolError)
    else
      var payloadLength := FromBigEndian(data[5..7]);
      if |data| != HEADER_SIZE + payloadLength + TRAILER_SIZE then Err(ProtocolError)
      else DecodeSized(data, payloadLength)
  }

  /** The rest of decoding, for data of the length its length field says. */
  function DecodeSized(data: bytes, payloadLength: nat): Result<Frame, FrameError>
    requires |data| == HEADER_SIZE + payloadLength + TRAILER_SIZE
  {
    var payload := data[HEADER_SIZE..HEADER_SIZE + payloadLength];
    var sequence := FromBigEndian(data[HEADER_SIZE + payloadLength..HEADER_SIZE + payloadLength + 2]);
    var receivedCrc := FromBigEndian(data[|data| - 2..]);
    if Crc16(data[..|data| - 2]) != receivedCrc then Err(IntegrityError)
    else
      var messageType :- MessageTypeForCode(data[4]);
      NewFrame(RawFrame(data[2], data[3], messageType, payload, sequence, data[1]))
  }

  // ---------- round trips ----------

  lemma WordRoundTrip(n: nat)
    requires n < 0x10000
    ensures FromBigEndian(BigEndian(n, 2)) == n
  {
    assert Pow256(2) == 0x10000;
    FromBigEndianInverse(n, 2);
  }

  lemma WordOfOctets(b: bytes)
    requires |b| == 2
    ensures FromBigEndian(b) < 0x10000 && BigEndian(FromBigEndian(b), 2) == b
  {
    assert Pow256(2) == 0x10000;
    BigEndianInverse(b);
  }

  /** Where the five parts of a frame body and its CRC lie on the wire. */
  lemma Layout(h: bytes, len: bytes, payload: bytes, sequence: bytes, crc: bytes)
    requires |h| == 5 && |len| == |sequence| == |crc| == 2
    ensures var data, n := h + len + payload + sequence + crc, |payload|;
      && |data| == n + 11 && data[..5] == h && data[5..7] == len && data[7..7 + n] == payload
      && data[7 + n..7 + n + 2] == sequence && data[|data| - 2..] == crc
      && data[..|data| - 2] == h + len + payload + sequence
  {
  }

  lemma Reassemble(data: bytes)
    requires |data| >= 11
    ensures var n := |data| - 11;
      data == data[..5] + data[5..7] + data[7..7 + n] + data[7 + n..7 + n + 2] + data[|data| - 2..]
  {
  }

  /** Where each field of a frame lies on the wire. */
  lemma WireLayout(f: Frame)
    requires Encodable(f)
    ensures Encode(f).Ok?
    ensures var w, n := Encode(f).value, |f.payload|;
      && |w| == n + 11
      && w[0] == 0xA5 && w[1] == f.protocolVersion && w[2] == f.source && w[3] == f.destination
      && MessageTypeForCode(w[4]) == Ok(f.messageType)
      && FromBigEndian(w[5..7]) == n && w[7..7 + n] == f.payload && FromBigEndian(w[7 + n..9 + n]) == f.sequence
      && FromBigEndian(w[9 + n..]) == Crc16(w[..9 + n])
  {
    var h := Header(f.protocolVersion, f.source, f.destination, CodeFor(f.messageType));
    var crc, w := Crc16(Body(f)), Encode(f).value;
    Layout(h, BigEndian(|f.payload|, 2), f.payload, BigEndian(f.sequence, 2), BigEndian(crc, 2));
    assert w[0] == h[0] && w[1] == h[1] && w[2] == h[2] && w[3] == h[3] && w[4] == h[4] by {
      assert w[..5] == h;
    }
    Crc16Bits(Body(f));
    WordRoundTrip(crc);
    WordRoundTrip(|f.payload|);
    WordRoundTrip(f.sequence);
  }

  /** Decoding undoes encoding. */
  lemma DecodeEncode(f: Frame)
    requires Encodable(f)
    ensures Encode(f).Ok? && Decode(Encode(f).value) == Ok(f)
  {
    var h := Header(f.protocolVersion, f.source, f.destination, CodeFor(f.messageType));
    var crc := Crc16(Body(f));
    Layout(h, BigEndian(|f.payload|, 2), f.payload, BigEndian(f.sequence, 2), BigEndian(crc, 2));
    var data := Encode(f).value;
    assert data[0] == h[0] && data[1] == h[1] && data[2] == h[2] && data[3] == h[3] && data[4] == h[4] by {
      assert data[..5] == h;
    }
    Crc16Bits(Body(f));
    WordRoundTrip(crc);
    WordRoundTrip(|f.payload|);
    WordRoundTrip(f.sequence);
  }

  /** Encoding undoes decoding, so every accepted octet string is the encoding of exactly one frame. */
  lemma EncodeDecode(data: bytes)
    requires Decode(data).Ok?
    ensures Encodable(Decode(data).value) && Encode(Decode(data).value) == Ok(data)
  {
    var f, n := Decode(data).value, |data| - 11;
    Reassemble(data);
    WordOfOctets(data[5..7]);
    WordOfOctets(data[7 + n..7 + n + 2]);
    WordOfOctets(data[|data| - 2..]);
    CodeForInverse(data[4]);
    HeaderOf(data);
    Layout(data[..5], data[5..7], data[7..7 + n], data[7 + n..7 + n + 2], data[|data| - 2..]);
  }

  lemma HeaderOf(data: bytes)
    requires |data| >= 5 && data[0] == SOF
    ensures data[..5] == Header(data[1], data[2], data[3], data[4])
  {
  }

  // ---------- error detection ----------

  /** The CRC comparison made by the receiver is the test that the whole wire has residue zero. */
  lemma ResidueTest(data: bytes)
    requires |data| >= 2
    ensures Crc16(data[..|data| - 2]) == FromBigEndian(data[|data| - 2..])
       <==> BitCrc(Zeros(16), BitsOf(data)) == Zeros(16)
  {
    var body, tail := data[..|data| - 2], data[|data| - 2..];
    assert data == body + tail;
    WordOfOctets(tail);
    WordResidue(body, FromBigEndian(tail), 16);
  }

  lemma WordResidue(body: bytes, received: nat, width: nat)
    requires width == 16 && received < 0x10000
    ensures Crc16(body) == received <==> BitCrc(Zeros(width), BitsOf(body + BigEndian(received, 2))) == Zeros(width)
  {
    var crc, tail := Crc16(body), BigEndian(received, 2);
    BitsOfConcat(body, tail);
    Chain(Zeros(width), BitsOf(body), BitsOf(tail));
    Crc16Bits(body);
    BitsOfWord(received);
    Residue(ToBits(crc, width), ToBits(received, width));
    Powers();
    ValueOfBits(crc, width);
    ValueOfBits(received, width);
  }

  lemma WireResidue(f: Frame)
    requires Encodable(f)
    ensures BitCrc(Zeros(16), BitsOf(Encode(f).value)) == Zeros(16)
  {
    DecodeEncode(f);
    ResidueTest(Encode(f).value);
  }

  lemma ResidueOfXor(w: bits, e: bits)
    requires |w| == |e| && BitCrc(Zeros(16), w) == Zeros(16)
    ensures BitCrc(Zeros(16), Xor(w, e)) == BitCrc(Zeros(16), e)
  {
    var z, r := Zeros(16), BitCrc(Zeros(16), e);
    assert Xor(z, z) == z;
    Linear(z, z, w, e);
    assert Xor(z, r) == r;
  }

  /** Corrupting a wire by `e` changes its residue by the CRC of `e`. */
  lemma CorruptedResidue(f: Frame, e: bytes)
    requires Encodable(f) && |e| == |Encode(f).value|
    ensures BitCrc(Zeros(16), BitsOf(XorBytes(Encode(f).value, e))) == BitCrc(Zeros(16), BitsOf(e))
  {
    var w := Encode(f).value;
    WireResidue(f);
    BitsOfXor(w, e);
    ResidueOfXor(BitsOf(w), BitsOf(e));
  }

  predicate WellFramed(data: bytes)
  {
    && |data| >= HEADER_SIZE + TRAILER_SIZE && data[0] == SOF
    && |data| == HEADER_SIZE + FromBigEndian(data[5..7]) + TRAILER_SIZE
  }

  lemma DecodeWellFramed(data: bytes)
    requires WellFramed(data)
    ensures Decode(data).Ok?
       <==> data[4] < |MESSAGE_TYPES| && Crc16(data[..|data| - 2]) == FromBigEndian(data[|data| - 2..])
  {
    WordOfOctets(data[5..7]);
    DecodeSizedOk(data, FromBigEndian(data[5..7]));
  }

  lemma DecodeSizedOk(data: bytes, n: nat)
    requires |data| == HEADER_SIZE + n + TRAILER_SIZE && n < 0x10000
    ensures DecodeSized(data, n).Ok?
       <==> data[4] < |MESSAGE_TYPES| && Crc16(data[..|data| - 2]) == FromBigEndian(data[|data| - 2..])
  {
    WordOfOctets(data[HEADER_SIZE + n..HEADER_SIZE + n + 2]);
  }

  /** Acceptance is start byte, exact length, known type code and zero residue. */
  lemma Accepted(data: bytes)
    ensures Decode(data).Ok?
       <==> WellFramed(data) && data[4] < |MESSAGE_TYPES| && BitCrc(Zeros(16), BitsOf(data)) == Zeros(16)
  {
    if WellFramed(data) {
      DecodeWellFramed(data);
      ResidueTest(data);
    }
  }

  /** A well-framed octet string is refused for its CRC first, then for its type. */
  lemma SizedRefusal(data: bytes, n: nat)
    requires |data| == HEADER_SIZE + n + TRAILER_SIZE && n < 0x10000 && DecodeSized(data, n).Err?
    ensures DecodeSized(data, n).error ==
      if Crc16(data[..|data| - 2]) != FromBigEndian(data[|data| - 2..]) then IntegrityError else ProtocolError
  {
    WordOfOctets(data[HEADER_SIZE + n..HEADER_SIZE + n + 2]);
  }

  lemma FramedRefusal(data: bytes)
    requires WellFramed(data) && Decode(data).Err?
    ensures Decode(data).error == if BitCrc(Zeros(16), BitsOf(data)) != Zeros(16) then IntegrityError else ProtocolError
  {
    WordOfOctets(data[5..7]);
    SizedRefusal(data, FromBigEndian(data[5..7]));
    ResidueTest(data);
  }

  /** Which error a refused octet string gets: an integrity error exactly when it is framed well but its CRC fails. */
  lemma RefusedWith(data: bytes)
    requires Decode(data).Err?
    ensures Decode(data).error ==
      if |data| >= 11 && data[0] == 0xA5 && |data| == 11 + FromBigEndian(data[5..7])
         && BitCrc(Zeros(16), BitsOf(data)) != Zeros(16)
      then IntegrityError else ProtocolError
  {
    if WellFramed(data) {
      FramedRefusal(data);
    }
  }

  lemma NonzeroCrcRejected(f: Frame, e: bytes)
    requires Encodable(f) && |e| == |Encode(f).value|
    requires BitCrc(Zeros(16), BitsOf(e)) != Zeros(16)
    ensures Decode(XorBytes(Encode(f).value, e)).Err?
  {
    CorruptedResidue(f, e);
    Accepted(XorBytes(Encode(f).value, e));
  }

  /** Every non-zero error inside 16 consecutive bits of an encoded frame is rejected. */
  lemma BurstRejected(f: Frame, e: bytes, p: nat)
    requires Encodable(f) && |e| == |Encode(f).value|
    requires BurstAt(BitsOf(e), p)
    ensures Decode(XorBytes(Encode(f).value, e)).Err?
  {
    BurstDetected(BitsOf(e), p);
    NonzeroCrcRejected(f, e);
  }

  /** Flipping any odd number of bits of an encoded frame is rejected. */
  lemma OddFlipsRejected(f: Frame, e: bytes)
    requires Encodable(f) && |e| == |Encode(f).value|
    requires Parity(BitsOf(e))
    ensures Decode(XorBytes(Encode(f).value, e)).Err?
  {
    OddDetected(BitsOf(e));
    NonzeroCrcRejected(f, e);
  }

  lemma XorByteIsIdentity(a: byte, b: byte)
    ensures XorByte(a, b) == a <==> b == 0
  {
    var x, y := ToBits(a, 8), ToBits(b, 8);
    BitsOfValue(Xor(x, y));
    Powers();
    ValueOfBits(b, 8);
    ValueOfBits(a, 8);
    ZeroBits(8);
    ValueOfBits(0, 8);
    if b == 0 {
      assert Xor(x, y) == x;
    }
    if XorByte(a, b) == a {
      assert Xor(x, y) == x;
      assert forall k :: 0 <= k < 8 ==> x[k] == (x[k] != y[k]);
      assert y == Zeros(8);
    }
  }

  lemma LengthFieldKept(w: bytes, e: bytes)
    requires |w| == |e| >= 7
    ensures FromBigEndian(XorBytes(w, e)[5..7]) == FromBigEndian(w[5..7]) <==> e[5] == 0 && e[6] == 0
  {
    var a, b := w[5..7], XorBytes(w, e)[5..7];
    WordOfOctets(a);
    WordOfOctets(b);
    XorByteIsIdentity(w[5], e[5]);
    XorByteIsIdentity(w[6], e[6]);
    assert b == [XorByte(w[5], e[5]), XorByte(w[6], e[6])] && a == [w[5], w[6]];
  }

  lemma TypeOctet(f: Frame)
    requires Encodable(f)
    ensures |Encode(f).value| >= 11 && Encode(f).value[4] == CodeFor(f.messageType)
  {
    WireLayout(f);
    CodeForInverse(Encode(f).value[4]);
  }

  lemma FramingKept(w: bytes, e: bytes)
    requires WellFramed(w) && |e| == |w|
    ensures WellFramed(XorBytes(w, e)) <==> e[0] == 0 && e[5] == 0 && e[6] == 0
  {
    XorByteIsIdentity(w[0], e[0]);
    LengthFieldKept(w, e);
  }

  lemma ErrorsOnAccepted(w: bytes, e: bytes)
    requires Decode(w).Ok? && |e| == |w|
    ensures |w| >= 11
    ensures Decode(XorBytes(w, e)).Ok?
       <==> && BitCrc(Zeros(16), BitsOf(e)) == Zeros(16)
            && e[0] == 0 && e[5] == 0 && e[6] == 0
            && XorByte(w[4], e[4]) < |MESSAGE_TYPES|
  {
    Accepted(w);
    Accepted(XorBytes(w, e));
    BitsOfXor(w, e);
    ResidueOfXor(BitsOf(w), BitsOf(e));
    FramingKept(w, e);
  }

  /**
   Exactly which errors go undetected: those whose CRC is zero, that leave the start byte and the length field
   alone, and that turn the type code into a known one.
   */
  lemma UndetectedErrors(f: Frame, e: bytes)
    requires Encodable(f) && |e| == |Encode(f).value|
    ensures Decode(XorBytes(Encode(f).value, e)).Ok?
       <==> && BitCrc(Zeros(16), BitsOf(e)) == Zeros(16)
            && e[0] == 0 && e[5] == 0 && e[6] == 0
            && XorByte(CodeFor(f.messageType), e[4]) < |MESSAGE_TYPES|
  {
    var w := Encode(f).value;
    DecodeEncode(f);
    TypeOctet(f);
    ErrorsOnAccepted(w, e);
  }
}
