/**
 Messages and their wire form: a twelve-byte header and a payload whose shape depends
 on the message type. Compressors are given as a pair of functions.
 */
module Codec {
  import opened Bytes
  import opened Encryptor
  import opened Acknowledgements
  import opened AckCodec
  import opened Fields

  const HEADER_SIZE: nat := 12
  const AUTH_RESPONSE_MIN: nat := 14

  const AUTHENTICATION: u8 := 1
  const HANDSHAKE: u8 := 2
  const DATA: u8 := 3
  const KEEPALIVE: u8 := 4
  const RESET: u8 := 5

  const NONE: u8 := 0
  const LZ4: u8 := 1
  const LZO: u8 := 2
  const ZSTD: u8 := 3

  const FLAG_ERROR: nat := 1
  const FLAG_REQUEST: nat := 2
  const FLAG_ACK: nat := 4
  const FLAG_LZ4: nat := 8
  const FLAG_LZO: nat := 16
  const FLAG_ZSTD: nat := 32

  datatype Payload =
    | NoPayload
    | Raw(data: bytes)
    | AuthRequest(clientID: bytes, name: bytes, password: bytes, compression: u8, level: u8)
    | AuthResponse(session: u32, localIP: bytes, remoteIP: bytes)
    | Handshake(key: bytes)
    | Acks(acks: AckData, size: nat)

  datatype Message = Message(
    id: u32, sessionID: u32, typ: u8, compressionType: u8, compressionLevel: u8,
    error: u8, payloadLength: u16, isError: bool, isRequest: bool, isACK: bool, payload: Payload)
  {
    predicate IsUserData() { typ == DATA && !isACK }
    predicate IsPayload() { typ != RESET && typ != KEEPALIVE }
  }

  const BLANK: Message := Message(0, 0, 0, 0, 0, 0, 0, false, false, false, NoPayload)

  datatype Config = Config(payloadSize: nat, obfuscate: bool)

  /** `compress` gives nothing when compression does not pay. */
  datatype Compressor = Compressor(
    compress: (u8, u8, bytes) -> Option<bytes>,
    decompress: (u8, bytes) -> Option<bytes>)

  ghost predicate Sound(cmp: Compressor) {
    forall kind: u8, level: u8, data: bytes :: cmp.compress(kind, level, data).Some? ==>
      cmp.decompress(kind, cmp.compress(kind, level, data).value) == Some(data)
  }

  // ----- header

  datatype Header = Header(typ: u8, flags: u8, id: u32, sessionID: u32, length: u16)

  function HeaderBytes(h: Header): (b: bytes)
    ensures |b| == HEADER_SIZE
  {
    [h.typ, h.flags] + Be32(h.id) + Be32(h.sessionID) + Be16(h.length)
  }

  function Flags(isError: bool, isACK: bool, isRequest: bool, compression: u8): u8
    requires compression <= ZSTD
  {
    (if isError then FLAG_ERROR else 0) + (if isACK then FLAG_ACK else 0) + (if isRequest then FLAG_REQUEST else 0)
    + (if compression == LZ4 then FLAG_LZ4 else if compression == LZO then FLAG_LZO
       else if compression == ZSTD then FLAG_ZSTD else 0)
  }

  /** `flags & flag == flag` for a flag of one bit. */
  predicate HasFlag(flags: u8, flag: nat)
    requires flag > 0
  {
    flags / flag % 2 == 1
  }

  predicate KnownType(typ: u8) {
    AUTHENTICATION <= typ <= RESET
  }

  function MaxEncrypted(cfg: Config): u16 {
    GetLength(cfg.payloadSize) % 0x1_0000
  }

  function ParsedHeader(cfg: Config, data: bytes): Result<Message, CodecError> {
    if |data| != HEADER_SIZE then Err(WrongHeaderSize)
    else if !KnownType(data[0]) then Err(UnknownCommand)
    else
      var flags, length := data[1], FromBe16(data[10..12]);
      if length > MaxEncrypted(cfg) then Err(WrongPayloadSize)
      else Ok(BLANK.(
        typ := data[0],
        isError := HasFlag(flags, FLAG_ERROR),
        isRequest := HasFlag(flags, FLAG_REQUEST),
        isACK := HasFlag(flags, FLAG_ACK),
        compressionType := if HasFlag(flags, FLAG_LZ4) then LZ4 else if HasFlag(flags, FLAG_LZO) then LZO
                           else if HasFlag(flags, FLAG_ZSTD) then ZSTD else NONE,
        id := FromBe32(data[2..6]),
        sessionID := FromBe32(data[6..10]),
        payloadLength := length))
  }

  method UnmarshalHeader(cfg: Config, data: bytes) returns (r: Result<Message, CodecError>)
    ensures r == ParsedHeader(cfg, data)
  {
    var m := BLANK;
    if |data| != HEADER_SIZE {
      return Err(WrongHeaderSize);
    }
    m := m.(typ := data[0]);
    if !KnownType(m.typ) {
      return Err(UnknownCommand);
    }
    if data[1] != 0 {
      if HasFlag(data[1], FLAG_ERROR) {
        m := m.(isError := true);
      }
      if HasFlag(data[1], FLAG_REQUEST) {
        m := m.(isRequest := true);
      }
      if HasFlag(data[1], FLAG_ACK) {
        m := m.(isACK := true);
      }
      if HasFlag(data[1], FLAG_LZ4) {
        m := m.(compressionType := LZ4);
      } else if HasFlag(data[1], FLAG_LZO) {
        m := m.(compressionType := LZO);
      } else if HasFlag(data[1], FLAG_ZSTD) {
        m := m.(compressionType := ZSTD);
      }
    }
    m := m.(id := FromBe32(data[2..6]), sessionID := FromBe32(data[6..10]), payloadLength := FromBe16(data[10..12]));
    if m.payloadLength > MaxEncrypted(cfg) {
      return Err(WrongPayloadSize);
    }
    return Ok(m);
  }

  /** The flag byte is a faithful encoding of what it announces. */
  lemma FlagsRoundTrip(isError: bool, isACK: bool, isRequest: bool, compression: u8)
    requires compression <= ZSTD
    ensures var flags := Flags(isError, isACK, isRequest, compression);
      && HasFlag(flags, FLAG_ERROR) == isError && HasFlag(flags, FLAG_ACK) == isACK
      && HasFlag(flags, FLAG_REQUEST) == isRequest
      && HasFlag(flags, FLAG_LZ4) == (compression == LZ4) && HasFlag(flags, FLAG_LZO) == (compression == LZO)
      && HasFlag(flags, FLAG_ZSTD) == (compression == ZSTD)
  {
  }

  lemma HeaderRoundTrip(cfg: Config, h: Header, isError: bool, isACK: bool, isRequest: bool, compression: u8)
    requires compression <= ZSTD && h.flags == Flags(isError, isACK, isRequest, compression)
    ensures ParsedHeader(cfg, HeaderBytes(h)) ==
      if !KnownType(h.typ) then Err(UnknownCommand)
      else if h.length > MaxEncrypted(cfg) then Err(WrongPayloadSize)
      else Ok(BLANK.(typ := h.typ, id := h.id, sessionID := h.sessionID, payloadLength := h.length,
                     isError := isError, isACK := isACK, isRequest := isRequest, compressionType := compression))
  {
    FlagsRoundTrip(isError, isACK, isRequest, compression);
    Be32RoundTrip(h.id);
    Be32RoundTrip(h.sessionID);
    Be16RoundTrip(h.length);
    var b := HeaderBytes(h);
    assert b[2..6] == Be32(h.id) && b[6..10] == Be32(h.sessionID) && b[10..12] == Be16(h.length);
    hide Flags, HasFlag, FromBe32, FromBe16, Be32, Be16;
  }

  // ----- marshalling

  /** What a sending side fixes besides the message: its settings, its compressor,
      the random draws, and the order in which the acknowledgement map iterates. */
  datatype Sender = Sender(cfg: Config, cmp: Compressor, rnd: Random, order: seq<u64>)

  datatype Encoded = Encoded(payload: bytes, isRequest: bool, compression: u8)

  function EncodedFields(s: Sender, front: bytes, fields: seq<bytes>, isRequest: bool): Result<Encoded, CodecError> {
    var written := WriteFields(fields);
    if written.Err? then Err(written.error)
    else
      var filled := WithFiller(s.cfg.obfuscate, s.cfg.payloadSize, front + written.value, s.rnd);
      if filled.Err? then Err(filled.error) else Ok(Encoded(filled.value, isRequest, NONE))
  }

  function Compressed(s: Sender, kind: u8, level: u8, data: bytes): Encoded {
    if kind == NONE || kind > ZSTD then Encoded(data, false, NONE)
    else
      var packed := s.cmp.compress(kind, level, data);
      if packed.Some? then Encoded(packed.value, false, kind) else Encoded(data, false, NONE)
  }

  function EncodedPayload(s: Sender, m: Message): Result<Encoded, CodecError>
    requires m.payload.Acks? ==> IsOrder(s.order, m.payload.acks)
  {
    if m.error > 0 then Ok(Encoded([m.error], false, NONE))
    else if m.typ == AUTHENTICATION then
      match m.payload
      case AuthRequest(clientID, name, password, compression, level) =>
        EncodedFields(s, [], [clientID, name, password, [compression], [level]], true)
      case AuthResponse(session, localIP, remoteIP) => EncodedFields(s, Be32(session), [localIP, remoteIP], false)
      case _ => Err(WrongPayload)
    else if m.typ == HANDSHAKE then
      if m.payload.Handshake? then EncodedFields(s, [], [m.payload.key], false) else Err(WrongPayload)
    else if m.typ == DATA then
      if !m.isACK then
        if m.payload.Raw? then Ok(Compressed(s, m.compressionType, m.compressionLevel, m.payload.data)) else Err(WrongPayload)
      else if !m.payload.Acks? then Err(WrongPayload)
      else if SizeAlong(m.payload.acks, s.order) > m.payload.size then Err(IndexPanic)
      else
        var written := Encode(m.payload.acks, s.order);
        Ok(Encoded(written + seq(m.payload.size - SizeAlong(m.payload.acks, s.order), _ => 0), false, NONE))
    else Ok(Encoded([], false, NONE))
  }

  function AnnouncedLength(m: Message, payload: bytes): u16 {
    if m.error > 0 || m.typ == AUTHENTICATION || m.typ == HANDSHAKE || m.typ == DATA
    then GetLength(|payload|) % 0x1_0000 else 0
  }

  function HeaderOf(m: Message, e: Encoded): Header
    requires e.compression <= ZSTD
  {
    Header(m.typ, Flags(m.error > 0, m.isACK, e.isRequest, e.compression), m.id, m.sessionID, AnnouncedLength(m, e.payload))
  }

  lemma CompressionIsKnown(s: Sender, m: Message)
    requires m.payload.Acks? ==> IsOrder(s.order, m.payload.acks)
    ensures EncodedPayload(s, m).Ok? ==> EncodedPayload(s, m).value.compression <= ZSTD
  {
  }

  function Marshalled(s: Sender, m: Message): Result<(bytes, bytes), CodecError>
    requires m.payload.Acks? ==> IsOrder(s.order, m.payload.acks)
  {
    CompressionIsKnown(s, m);
    var e := EncodedPayload(s, m);
    if e.Err? then Err(e.error) else Ok((HeaderBytes(HeaderOf(m, e.value)), e.value.payload))
  }

  // ----- reading a payload

  function ParsedRequest(m: Message, raw: bytes): Result<Message, CodecError> {
    var fields := ReadFields(raw, 5);
    if fields.Err? then Err(fields.error)
    else if |fields.value| != 5 then Err(WrongPayload)
    else if fields.value[3] == [] || fields.value[4] == [] then Err(IndexPanic)
    else Ok(m.(payload := AuthRequest(fields.value[0], fields.value[1], fields.value[2], fields.value[3][0], fields.value[4][0])))
  }

  function ParsedResponse(m: Message, raw: bytes): Result<Message, CodecError> {
    if |raw| < AUTH_RESPONSE_MIN then Err(WrongPayload)
    else
      var fields := ReadFields(raw[4..], 2);
      if fields.Err? then Err(fields.error)
      else if |fields.value| != 2 then Err(WrongPayload)
      else Ok(m.(payload := AuthResponse(FromBe32(raw[..4]), fields.value[0], fields.value[1])))
  }

  function ParsedHandshake(m: Message, raw: bytes): Result<Message, CodecError> {
    var fields := ReadFields(raw, 1);
    if fields.Err? then Err(fields.error)
    else if |fields.value| != 1 then Err(WrongPayload)
    else Ok(m.(payload := Handshake(fields.value[0])))
  }

  function ParsedData(cmp: Compressor, m: Message, raw: bytes): Result<Message, CodecError> {
    if m.isACK then
      var acks := Decode(raw);
      if acks.Err? then Err(acks.error) else Ok(m.(payload := Acks(acks.value, 0)))
    else if m.compressionType == NONE || m.compressionType > ZSTD then Ok(m.(payload := Raw(raw)))
    else
      var plain := cmp.decompress(m.compressionType, raw);
      if plain.None? then Err(DecompressFailed) else Ok(m.(payload := Raw(plain.value)))
  }

  /** What becomes of a message whose header is read and whose decrypted payload is `raw`. */
  function ParsedPayload(cmp: Compressor, m: Message, raw: bytes): Result<Message, CodecError> {
    if m.payloadLength == 0 then Ok(m.(payload := Raw(raw)))
    else if m.isError then
      if |raw| < 1 then Err(WrongPayload) else Ok(m.(error := raw[0], payload := Raw(raw)))
    else if m.typ == AUTHENTICATION then
      if m.isRequest then ParsedRequest(m, raw) else ParsedResponse(m, raw)
    else if m.typ == HANDSHAKE then ParsedHandshake(m, raw)
    else if m.typ == DATA then ParsedData(cmp, m, raw)
    else Ok(m.(payload := Raw(raw)))
  }

  // ----- round trip

  /** What the receiver makes of `m`: everything but the compression level, and the
      compression that was applied rather than the one that was asked for. */
  function Recovered(m: Message, e: Encoded): Message {
    BLANK.(typ := m.typ, id := m.id, sessionID := m.sessionID, payloadLength := AnnouncedLength(m, e.payload),
           isError := m.error > 0, isACK := m.isACK, isRequest := e.isRequest, compressionType := e.compression,
           error := m.error,
           payload := if m.error > 0 then Raw(e.payload)
                      else if m.payload.Acks? then Acks(m.payload.acks, 0)
                      else m.payload)
  }

  /** The header as the receiver reads it, before the payload is looked at. */
  function HeaderRead(m: Message, e: Encoded): Message {
    Recovered(m, e).(error := 0, payload := NoPayload)
  }

  /** Acknowledgement sets come from the accumulator and fit; everything else is free. */
  ghost predicate Sendable(s: Sender, m: Message) {
    m.payload.Acks? ==> exists limit :: Fits(AckSet(m.payload.acks, m.payload.size, limit)) && IsOrder(s.order, m.payload.acks)
  }

  /** What a caller must see to for the payload to be read back. */
  predicate Readable(m: Message, payload: bytes) {
    && payload != []
    && (m.error == 0 && m.typ == AUTHENTICATION && m.payload.AuthResponse? ==> |payload| >= AUTH_RESPONSE_MIN)
  }

  lemma FilledFields(s: Sender, front: bytes, fields: seq<bytes>, isRequest: bool)
    requires EncodedFields(s, front, fields, isRequest).Ok?
    ensures var payload := EncodedFields(s, front, fields, isRequest).value.payload;
      && front <= payload && ReadFields(payload[|front|..], |fields|) == Ok(fields)
  {
    var written := WriteFields(fields).value;
    var filler := if s.cfg.obfuscate then Filler(s.cfg.payloadSize - |front + written|, s.rnd) else [];
    FieldsRoundTrip(fields, filler);
    hide ReadFields, WriteFields, Filler;
    FrontAndRest(front, written, filler);
  }

  lemma FrontAndRest(front: bytes, written: bytes, filler: bytes)
    ensures front <= (front + written) + filler && ((front + written) + filler)[|front|..] == written + filler
    ensures filler == [] ==> (front + written) + filler == front + written
  {
  }

  lemma RequestRoundTrip(s: Sender, m: Message)
    requires m.error == 0 && m.typ == AUTHENTICATION && m.payload.AuthRequest? && EncodedPayload(s, m).Ok?
    ensures var e := EncodedPayload(s, m).value;
      ParsedRequest(HeaderRead(m, e), e.payload) == Ok(Recovered(m, e))
  {
    var p := m.payload;
    var fields := [p.clientID, p.name, p.password, [p.compression], [p.level]];
    FilledFields(s, [], fields, true);
    var e := EncodedPayload(s, m).value;
    assert e.payload[0..] == e.payload;
  }

  lemma ResponseRoundTrip(s: Sender, m: Message)
    requires m.error == 0 && m.typ == AUTHENTICATION && m.payload.AuthResponse? && EncodedPayload(s, m).Ok?
    ensures var e := EncodedPayload(s, m).value;
      ParsedResponse(HeaderRead(m, e), e.payload)
      == if |e.payload| < AUTH_RESPONSE_MIN then Err(WrongPayload) else Ok(Recovered(m, e))
  {
    var p := m.payload;
    FilledFields(s, Be32(p.session), [p.localIP, p.remoteIP], false);
    Be32RoundTrip(p.session);
    var e := EncodedPayload(s, m).value;
    assert e.payload[..4] == Be32(p.session);
  }

  lemma HandshakeRoundTrip(s: Sender, m: Message)
    requires m.error == 0 && m.typ == HANDSHAKE && m.payload.Handshake? && EncodedPayload(s, m).Ok?
    ensures var e := EncodedPayload(s, m).value;
      ParsedHandshake(HeaderRead(m, e), e.payload) == Ok(Recovered(m, e))
  {
    FilledFields(s, [], [m.payload.key], false);
    var e := EncodedPayload(s, m).value;
    assert e.payload[0..] == e.payload;
  }

  lemma DataRoundTrip(s: Sender, m: Message)
    requires Sound(s.cmp) && Sendable(s, m)
    requires m.error == 0 && m.typ == DATA && EncodedPayload(s, m).Ok? && EncodedPayload(s, m).value.payload != []
    ensures var e := EncodedPayload(s, m).value;
      ParsedData(s.cmp, HeaderRead(m, e), e.payload) == Ok(Recovered(m, e))
  {
    if m.isACK {
      var limit :| Fits(AckSet(m.payload.acks, m.payload.size, limit)) && IsOrder(s.order, m.payload.acks);
      var acks := AckSet(m.payload.acks, m.payload.size, limit);
      assert SizeAlong(acks.data, s.order) == acks.size;
      var e := EncodedPayload(s, m).value;
      assert e.payload == Encode(acks.data, s.order);
      EncodeLength(acks.data, s.order);
      AcknowledgementRoundTrip(acks, s.order);
    }
  }

  /** Fields, compression, acknowledgements and error codes are read back, whatever
      filler follows, exactly when the payload is readable. */
  lemma PayloadRoundTrip(s: Sender, m: Message)
    requires Sound(s.cmp) && Sendable(s, m) && EncodedPayload(s, m).Ok?
    requires m.typ == AUTHENTICATION || m.typ == HANDSHAKE || m.typ == DATA
    requires EncodedPayload(s, m).value.payload != [] && AnnouncedLength(m, EncodedPayload(s, m).value.payload) > 0
    ensures var e := EncodedPayload(s, m).value;
      ParsedPayload(s.cmp, HeaderRead(m, e), e.payload)
      == if Readable(m, e.payload) then Ok(Recovered(m, e)) else Err(WrongPayload)
  {
    if m.error == 0 {
      if m.typ == AUTHENTICATION {
        if m.payload.AuthRequest? { RequestRoundTrip(s, m); } else { ResponseRoundTrip(s, m); }
      } else if m.typ == HANDSHAKE {
        HandshakeRoundTrip(s, m);
      } else {
        DataRoundTrip(s, m);
      }
    }
  }

  // ----- the code

  /** The header buffer is filled in the order the fields become known. */
  method WriteHeader(h: Header) returns (b: bytes)
    ensures b == HeaderBytes(h)
  {
    var header := new u8[HEADER_SIZE](_ => 0);
    var id, session, length := Be32(h.id), Be32(h.sessionID), Be16(h.length);
    hide Be32, Be16;
    header[0] := h.typ;
    forall k | 10 <= k < 12 { header[k] := length[k - 10]; }
    forall k | 2 <= k < 6 { header[k] := id[k - 2]; }
    forall k | 6 <= k < 10 { header[k] := session[k - 6]; }
    header[1] := h.flags;
    b := header[..];
    assert forall k :: 0 <= k < HEADER_SIZE ==> b[k] == HeaderBytes(h)[k];
  }

  method MarshalFields(s: Sender, front: bytes, fields: seq<bytes>, isRequest: bool) returns (r: Result<Encoded, CodecError>)
    ensures r == EncodedFields(s, front, fields, isRequest)
  {
    var written := MarshalBytes(fields);
    if written.Err? {
      return Err(written.error);
    }
    var filled := AddFakeData(s.cfg.obfuscate, s.cfg.payloadSize, front + written.value, s.rnd);
    if filled.Err? {
      return Err(filled.error);
    }
    return Ok(Encoded(filled.value, isRequest, NONE));
  }

  method MarshalData(s: Sender, m: Message) returns (r: Result<Encoded, CodecError>)
    requires m.payload.Acks? ==> IsOrder(s.order, m.payload.acks)
    requires m.error == 0 && m.typ == DATA
    ensures r == EncodedPayload(s, m)
  {
    if !m.isACK {
      if !m.payload.Raw? {
        return Err(WrongPayload);
      }
      var payload, compression := m.payload.data, NONE;
      if m.compressionType == LZ4 || m.compressionType == LZO || m.compressionType == ZSTD {
        var packed := s.cmp.compress(m.compressionType, m.compressionLevel, payload);
        if packed.Some? {
          payload, compression := packed.value, m.compressionType;
        }
      }
      return Ok(Encoded(payload, false, compression));
    }
    if !m.payload.Acks? {
      return Err(WrongPayload);
    }
    var written := MarshalAcknowledgement(m.payload.acks, m.payload.size, s.order);
    if written.Err? {
      return Err(written.error);
    }
    EncodeLength(m.payload.acks, s.order);
    hide Encode, SizeAlong, IsOrder;
    assert written.value == Encode(m.payload.acks, s.order) + seq(m.payload.size - SizeAlong(m.payload.acks, s.order), _ => 0);
    return Ok(Encoded(written.value, false, NONE));
  }

  method MarshalPayload(s: Sender, m: Message) returns (r: Result<Encoded, CodecError>)
    requires m.payload.Acks? ==> IsOrder(s.order, m.payload.acks)
    ensures r == EncodedPayload(s, m)
  {
    hide IsOrder;
    if m.error > 0 {
      return Ok(Encoded([m.error], false, NONE));
    }
    if m.typ == AUTHENTICATION {
      match m.payload {
        case AuthRequest(clientID, name, password, compression, level) =>
          r := MarshalFields(s, [], [clientID, name, password, [compression], [level]], true);
        case AuthResponse(session, localIP, remoteIP) =>
          r := MarshalFields(s, Be32(session), [localIP, remoteIP], false);
        case _ => return Err(WrongPayload);
      }
    } else if m.typ == HANDSHAKE {
      if !m.payload.Handshake? {
        return Err(WrongPayload);
      }
      r := MarshalFields(s, [], [m.payload.key], false);
    } else if m.typ == DATA {
      r := MarshalData(s, m);
    } else {
      return Ok(Encoded([], false, NONE));
    }
  }

  method Marshal(s: Sender, m: Message) returns (r: Result<(bytes, bytes), CodecError>)
    requires m.payload.Acks? ==> IsOrder(s.order, m.payload.acks)
    ensures r == Marshalled(s, m)
  {
    var e := MarshalPayload(s, m);
    if e.Err? {
      return Err(e.error);
    }
    CompressionIsKnown(s, m);
    hide EncodedPayload, Flags, IsOrder;
    var header := WriteHeader(HeaderOf(m, e.value));
    return Ok((header, e.value.payload));
  }

  method UnmarshalPayload(cmp: Compressor, m: Message, raw: bytes) returns (r: Result<Message, CodecError>)
    ensures r == ParsedPayload(cmp, m, raw)
  {
    if m.payloadLength == 0 {
      return Ok(m.(payload := Raw(raw)));
    }
    if m.isError {
      if |raw| < 1 {
        return Err(WrongPayload);
      }
      return Ok(m.(error := raw[0], payload := Raw(raw)));
    }
    if m.typ == AUTHENTICATION && m.isRequest {
      var fields := UnmarshalBytes(raw, 5);
      if fields.Err? {
        return Err(fields.error);
      }
      var f := fields.value;
      if |f| != 5 {
        return Err(WrongPayload);
      }
      if f[3] == [] || f[4] == [] {
        return Err(IndexPanic);
      }
      return Ok(m.(payload := AuthRequest(f[0], f[1], f[2], f[3][0], f[4][0])));
    }
    if m.typ == AUTHENTICATION {
      if |raw| < AUTH_RESPONSE_MIN {
        return Err(WrongPayload);
      }
      var fields := UnmarshalBytes(raw[4..], 2);
      if fields.Err? {
        return Err(fields.error);
      }
      if |fields.value| != 2 {
        return Err(WrongPayload);
      }
      return Ok(m.(payload := AuthResponse(FromBe32(raw[..4]), fields.value[0], fields.value[1])));
    }
    if m.typ == HANDSHAKE {
      var fields := UnmarshalBytes(raw, 1);
      if fields.Err? {
        return Err(fields.error);
      }
      if |fields.value| != 1 {
        return Err(WrongPayload);
      }
      return Ok(m.(payload := Handshake(fields.value[0])));
    }
    if m.typ == DATA && m.isACK {
      var acks := UnmarshalAcknowledgement(raw);
      if acks.Err? {
        return Err(acks.error);
      }
      return Ok(m.(payload := Acks(acks.value, 0)));
    }
    if m.typ == DATA && (m.compressionType == LZ4 || m.compressionType == LZO || m.compressionType == ZSTD) {
      var plain := cmp.decompress(m.compressionType, raw);
      if plain.None? {
        return Err(DecompressFailed);
      }
      return Ok(m.(payload := Raw(plain.value)));
    }
    return Ok(m.(payload := Raw(raw)));
  }
}
